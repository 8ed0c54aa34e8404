/**
 * The shape of the holdings over a run: nothing is held twice, every buy comes
 * from the top ranks, the number of holdings is bounded, and the sweep pays the
 * deficits in order until the cash is gone.
 */
module EngineStructure {
  import opened Common
  import opened EngineSpec
  import opened EngineLaws

  function CandAssets(cands: seq<Cand>): (r: seq<nat>) {
    seq(|cands|, i requires 0 <= i < |cands| => cands[i].a)
  }

  // ---- the buy list ----

  lemma {:induction false} WantedSound(day: Day, hs: seq<Pos>, cands: seq<Cand>)
    ensures forall a :: a in WantedIn(day, hs, cands) ==>
      a in CandAssets(cands) && !HeldKept(hs, a) && !day(a).Limited()
    ensures Distinct(CandAssets(cands)) ==> Distinct(WantedIn(day, hs, cands))
    ensures |WantedIn(day, hs, cands)| <= |cands|
  {
    if cands != [] {
      var n := |cands| - 1;
      WantedSound(day, hs, cands[..n]);
      assert CandAssets(cands) == CandAssets(cands[..n]) + [cands[n].a];
      DistinctSnoc(CandAssets(cands[..n]), cands[n].a);
      DistinctSnoc(WantedIn(day, hs, cands[..n]), cands[n].a);
    }
  }

  lemma BuyListSound(day: Day, holdN: nat, hs: seq<Pos>, cands: seq<Cand>)
    ensures var buys := BuyList(day, holdN, hs, cands);
      && |buys| <= MaxInt(0, Slots(holdN, hs))
      && (Distinct(CandAssets(cands)) ==> Distinct(buys))
      && forall a :: a in buys ==>
           InPrefix(cands, a, Top(holdN, cands)) && !HeldKept(hs, a) && !day(a).Limited()
  {
    var top := cands[..Top(holdN, cands)];
    WantedSound(day, hs, top);
    var all, buys := WantedIn(day, hs, top), BuyList(day, holdN, hs, cands);
    if Distinct(CandAssets(cands)) {
      assert CandAssets(top) == CandAssets(cands)[..|top|];
      assert Distinct(CandAssets(top));
    }
    forall a | a in buys
      ensures InPrefix(cands, a, Top(holdN, cands)) && !HeldKept(hs, a) && !day(a).Limited()
    {
      assert a in all;
      var k :| 0 <= k < |top| && CandAssets(top)[k] == a;
      assert cands[k].a == a;
    }
  }

  /** A holding in the top ranks is never marked for sale, so a buy is never already held. */
  lemma BuysNotHeld(p: Params, day: Day, cands: seq<Cand>, b: Book)
    requires p.Valid()
    ensures var plan := Decide(p, day, cands, b);
      forall a :: a in plan.buys ==> a !in Assets(plan.marked)
  {
    var plan := Decide(p, day, cands, b);
    var hs := plan.marked;
    BuyListSound(day, p.holdN, hs, cands);
    ExitCoversEntry(p);
    forall a | a in plan.buys
      ensures a !in Assets(hs)
    {
      var r := Find(hs, a);
      assert InPrefix(cands, a, Top(p.NExit(), cands));
      assert forall i :: 0 <= i < |hs| && hs[i].a == a ==> !hs[i].toSell;
    }
  }

  // ---- what each phase does to the assets held ----

  /** A book that a run can be in. */
  ghost predicate Sound(b: Book) {
    && b.cash >= 0.0
    && SharesPositive(b.holdings)
    && Distinct(Assets(b.holdings))
  }

  lemma {:induction false} KeptAssets(sell: Pos -> bool, hs: seq<Pos>)
    requires Distinct(Assets(hs))
    ensures Distinct(Assets(Kept(sell, hs)))
    ensures forall a :: a in Assets(Kept(sell, hs)) ==> a in Assets(hs)
  {
    if hs != [] {
      var n := |hs| - 1;
      assert Assets(hs) == Assets(hs[..n]) + [hs[n].a];
      DistinctSnoc(Assets(hs[..n]), hs[n].a);
      KeptAssets(sell, hs[..n]);
      var k := Kept(sell, hs[..n]);
      if sell(hs[n]) {
        assert k + [] == k;
      } else {
        assert Assets(k + [hs[n]]) == Assets(k) + [hs[n].a];
        DistinctSnoc(Assets(k), hs[n].a);
      }
    }
  }

  lemma LiquidateSound(day: Day, sell: Pos -> bool, b: Book)
    requires Sound(b) && Priced(day, b.holdings)
    ensures var r := Liquidate(day, sell, b);
      && Sound(r) && Priced(day, r.holdings)
      && (forall a :: a in Assets(r.holdings) ==> a in Assets(b.holdings))
      && (Worth(day, b) > 0.0 ==> Worth(day, r) > 0.0)
  {
    KeptAssets(sell, b.holdings);
    KeptSubset(sell, b.holdings);
    SoldNonNegative(day, sell, b.holdings);
    ValueSplit(day, sell, b.holdings);
    ValuePositive(day, Kept(sell, b.holdings));
  }

  lemma BuyOneSound(day: Day, target: real, b: Book, a: nat)
    requires Sound(b) && Priced(day, b.holdings) && a !in Assets(b.holdings)
    ensures var r := BuyOne(day, target, b, a);
      && Sound(r) && Priced(day, r.holdings)
      && (r.holdings == b.holdings || Assets(r.holdings) == Assets(b.holdings) + [a])
  {
    if day(a).Buyable() {
      var money := MinReal(target, b.cash);
      ShareMoney(money, Px(day, a));
      var q := Pos(a, SharesFor(money, Px(day, a)), false);
      assert Assets(b.holdings + [q]) == Assets(b.holdings) + [a];
    }
  }

  lemma {:induction false} BuyAllSound(day: Day, target: real, b: Book, buys: seq<nat>)
    requires Sound(b) && Priced(day, b.holdings)
    requires Distinct(buys) && forall a :: a in buys ==> a !in Assets(b.holdings)
    ensures var r := BuyAll(day, target, b, buys);
      && Sound(r) && Priced(day, r.holdings)
      && |b.holdings| <= |r.holdings| <= |b.holdings| + |buys|
      && forall a :: a in Assets(r.holdings) ==> a in Assets(b.holdings) || a in buys
    decreases |buys|
  {
    if buys != [] && b.cash > 0.0 {
      BuyOneSound(day, target, b, buys[0]);
      var c := BuyOne(day, target, b, buys[0]);
      assert buys == [buys[0]] + buys[1..];
      assert buys[0] !in buys[1..];
      BuyAllSound(day, target, c, buys[1..]);
      assert |c.holdings| == |Assets(c.holdings)|;
    }
  }

  lemma TopUpOneSound(day: Day, b: Book, d: Deficit)
    requires Sound(b) && Priced(day, b.holdings) && Quoted(day, b.holdings, [d])
    ensures var r := TopUpOne(b, d);
      Sound(r) && Priced(day, r.holdings) && Assets(r.holdings) == Assets(b.holdings)
  {
    assert d in [d];
    TopUpOneSpent(day, b, d);
    ShareMoney(MinReal(d.def, b.cash), d.c);
  }

  lemma {:induction false} TopUpSound(day: Day, b: Book, ds: seq<Deficit>)
    requires Sound(b) && Priced(day, b.holdings)
    requires forall i :: 0 <= i < |ds| ==> ds[i].c > 0.0
    requires Quoted(day, b.holdings, ds)
    ensures var r := TopUp(b, ds);
      Sound(r) && Priced(day, r.holdings) && Assets(r.holdings) == Assets(b.holdings)
    decreases |ds|
  {
    if ds != [] && b.cash > 0.0 {
      assert ds[0] in ds;
      TopUpOneSound(day, b, ds[0]);
      assert forall d :: d in ds[1..] ==> d in ds;
      TopUpSound(day, TopUpOne(b, ds[0]), ds[1..]);
    }
  }

  lemma SweepSound(day: Day, ord: DefOrder, target: real, b: Book)
    requires IsDefOrder(ord) && Sound(b) && Priced(day, b.holdings)
    ensures var r := Sweep(day, ord, target, b);
      Sound(r) && Priced(day, r.holdings) && Assets(r.holdings) == Assets(b.holdings)
  {
    if b.cash > 0.0 && b.holdings != [] {
      var ds := Deficits(day, target, b.holdings);
      DeficitsQuoted(day, target, b.holdings);
      DeficitsPriced(day, target, b.holdings);
      OrderKeeps(ord, ds);
      TopUpSound(day, b, ord(ds));
    }
  }

  // ---- one day ----

  lemma {:induction false} SoldCount(day: Day, hs: seq<Pos>)
    ensures |hs| - CountIntent(hs) <= |Kept(SellSel(day), hs)|
  {
    if hs != [] {
      SoldCount(day, hs[..|hs| - 1]);
    }
  }

  /** The intended sales that did not happen. */
  function Blocked(day: Day, plan: DayPlan): int {
    CountIntent(plan.marked) - (|plan.marked| - |SoldBook(day, plan).holdings|)
  }

  /** What a day promises: books stay sound, and buys never touch what is already held. */
  ghost predicate DayKeeps(p: Params, day: Day, plan: DayPlan, r: Book) {
    && Sound(r) && Priced(day, r.holdings)
    && (forall a :: a in plan.buys ==> a !in Assets(plan.marked))
    && Distinct(plan.buys)
    && Blocked(day, plan) >= 0
    && |r.holdings| <= MaxInt(p.holdN, |plan.marked| - CountIntent(plan.marked)) + Blocked(day, plan)
  }

  lemma PlanSound(p: Params, day: Day, cands: seq<Cand>, b: Book)
    requires p.Valid() && Sound(b) && Priced(day, b.holdings)
    requires Distinct(CandAssets(cands))
    ensures var plan := Decide(p, day, cands, b);
      && Sound(plan.start.(holdings := plan.marked)) && Priced(day, plan.marked)
      && (forall a :: a in plan.buys ==> a !in Assets(plan.marked))
      && Distinct(plan.buys)
      && |plan.buys| <= MaxInt(0, Slots(p.holdN, plan.marked))
      && |plan.marked| <= |b.holdings|
      && (Worth(day, b) > 0.0 ==> Worth(day, plan.start) > 0.0)
      && Worth(day, plan.start.(holdings := plan.marked)) == Worth(day, plan.start)
  {
    var plan := Decide(p, day, cands, b);
    var b0 := b.(turn := 0.0);
    LiquidateSound(day, DelistSel(day), b0);
    KeptSubset(DelistSel(day), b.holdings);
    assert Assets(plan.marked) == Assets(plan.start.holdings);
    BuysNotHeld(p, day, cands, b);
    BuyListSound(day, p.holdN, plan.marked, cands);
    ValueAgrees(day, plan.start.holdings, plan.marked);
    forall q | q in plan.marked
      ensures q.shares > 0.0 && day(q.a).Buyable()
    {
      var i :| 0 <= i < |plan.marked| && plan.marked[i] == q;
      assert plan.start.holdings[i] in plan.start.holdings;
    }
  }

  lemma ExecuteKeeps(p: Params, ord: DefOrder, day: Day, plan: DayPlan)
    requires p.Valid() && IsDefOrder(ord)
    requires Sound(plan.start.(holdings := plan.marked)) && Priced(day, plan.marked)
    requires forall a :: a in plan.buys ==> a !in Assets(plan.marked)
    requires Distinct(plan.buys) && |plan.buys| <= MaxInt(0, Slots(p.holdN, plan.marked))
    ensures DayKeeps(p, day, plan, Execute(p, ord, day, plan))
  {
    LiquidateSound(day, SellSel(day), plan.start.(holdings := plan.marked));
    var s := SoldBook(day, plan);
    SoldCount(day, plan.marked);
    BuyAllSound(day, Target(p, day, s), s, plan.buys);
    var c := BuyAll(day, Target(p, day, s), s, plan.buys);
    SweepSound(day, ord, Target(p, day, s), c);
    assert |Assets(c.holdings)| == |c.holdings|;
    assert |Execute(p, ord, day, plan).holdings| == |Assets(Execute(p, ord, day, plan).holdings)|;
  }

  /**
   * One day from a sound, priced book with distinct candidates: no asset is held
   * twice, the buys are disjoint from the holdings, and the number of holdings is
   * at most max(hold_n, kept) plus the intended sales that were blocked.
   */
  lemma StepKeeps(p: Params, ord: DefOrder, day: Day, cands: seq<Cand>, b: Book)
    requires p.Valid() && IsDefOrder(ord) && Sound(b) && Priced(day, b.holdings)
    requires Distinct(CandAssets(cands))
    ensures DayKeeps(p, day, Decide(p, day, cands, b), StepBook(p, ord, day, cands, b))
  {
    PlanSound(p, day, cands, b);
    ExecuteKeeps(p, ord, day, Decide(p, day, cands, b));
  }

  /** Buying never costs the whole worth. */
  lemma SpentPositive(day: Day, s: Book, r: Book)
    requires Spent(day, s, r) && s.cash >= 0.0 && Value(day, s.holdings) >= 0.0 && Worth(day, s) > 0.0
    ensures Worth(day, r) > 0.0
  {
    var spent := s.cash - r.cash;
    assert BUY_LOSS < 0.5;
    assert BUY_LOSS * spent <= 0.5 * spent;
  }

  /** The decision value and the end value of a day stay positive. */
  lemma StepPositive(p: Params, ord: DefOrder, day: Day, cands: seq<Cand>, b: Book)
    requires p.Valid() && IsDefOrder(ord) && Sound(b) && Priced(day, b.holdings)
    requires Distinct(CandAssets(cands)) && Worth(day, b) > 0.0
    ensures Worth(day, Decide(p, day, cands, b).start) > 0.0
    ensures Worth(day, StepBook(p, ord, day, cands, b)) > 0.0
  {
    var plan := Decide(p, day, cands, b);
    PlanSound(p, day, cands, b);
    ExecutePositive(p, ord, day, plan);
  }

  lemma ExecutePositive(p: Params, ord: DefOrder, day: Day, plan: DayPlan)
    requires p.Valid() && IsDefOrder(ord)
    requires Sound(plan.start.(holdings := plan.marked)) && Priced(day, plan.marked)
    requires Worth(day, plan.start.(holdings := plan.marked)) > 0.0
    ensures Worth(day, Execute(p, ord, day, plan)) > 0.0
  {
    LiquidateSound(day, SellSel(day), plan.start.(holdings := plan.marked));
    var s := SoldBook(day, plan);
    ValuePositive(day, s.holdings);
    ExecuteSpent(p, ord, day, plan);
    SpentPositive(day, s, Execute(p, ord, day, plan));
  }
}
