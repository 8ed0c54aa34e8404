/**
 * What a day of the kernel keeps: only a prefix of the ranking matters, money is
 * accounted for exactly, and no asset is ever held twice.
 */
module EngineLaws {
  import opened Common
  import opened EngineSpec

  // ---- only a prefix of the candidates matters ----

  lemma InPrefixCut(cands: seq<Cand>, a: nat, n: nat, cut: nat)
    requires n <= cut
    ensures InPrefix(cands, a, Top(n, cands)) ==
            InPrefix(cands[..Top(cut, cands)], a, Top(n, cands[..Top(cut, cands)]))
  {
    var short := cands[..Top(cut, cands)];
    assert Top(n, short) == Top(n, cands);
    assert forall k :: 0 <= k < Top(n, cands) ==> cands[k] == short[k];
  }

  /**
   * A candidate list cut anywhere at or beyond both the exit rank and the target
   * number of holdings leads to the same decisions and the same book.
   */
  lemma PrefixSuffices(p: Params, ord: DefOrder, day: Day, cands: seq<Cand>, cut: nat, b: Book)
    requires p.Valid() && IsDefOrder(ord)
    requires cut >= p.NExit() && cut >= p.holdN
    ensures Decide(p, day, cands[..Top(cut, cands)], b) == Decide(p, day, cands, b)
    ensures StepBook(p, ord, day, cands[..Top(cut, cands)], b) == StepBook(p, ord, day, cands, b)
  {
    var short := cands[..Top(cut, cands)];
    var hs := Decide(p, day, cands, b).start.holdings;
    forall i | 0 <= i < |hs|
      ensures Marked(day, cands, p.NExit(), hs[i]) == Marked(day, short, p.NExit(), hs[i])
    {
      InPrefixCut(cands, hs[i].a, p.NExit(), cut);
    }
    assert MarkAll(day, cands, p.NExit(), hs) == MarkAll(day, short, p.NExit(), hs);
    assert short[..Top(p.holdN, short)] == cands[..Top(p.holdN, cands)];
  }

  // ---- money ----

  function Worth(day: Day, b: Book): real {
    b.cash + Value(day, b.holdings)
  }

  /** Every held asset has a positive price. */
  ghost predicate Priced(day: Day, hs: seq<Pos>) {
    forall p :: p in hs ==> day(p.a).Buyable()
  }

  ghost predicate SharesPositive(hs: seq<Pos>) {
    forall p :: p in hs ==> p.shares > 0.0
  }

  lemma {:induction false} ValueAppend(day: Day, hs: seq<Pos>, p: Pos)
    ensures Value(day, hs + [p]) == Value(day, hs) + Amount(day, p)
  {
    assert (hs + [p])[..|hs|] == hs;
  }

  lemma KeptSnoc(sell: Pos -> bool, hs: seq<Pos>, p: Pos)
    ensures Kept(sell, hs + [p]) == if sell(p) then Kept(sell, hs) else Kept(sell, hs) + [p]
  {
    assert (hs + [p])[..|hs|] == hs;
  }

  lemma {:induction false} ValueSplit(day: Day, sell: Pos -> bool, hs: seq<Pos>)
    ensures Value(day, Kept(sell, hs)) + SoldValue(day, sell, hs) == Value(day, hs)
  {
    if hs != [] {
      var init, p := hs[..|hs| - 1], hs[|hs| - 1];
      ValueSplit(day, sell, init);
      KeptSnoc(sell, init, p);
      assert init + [p] == hs;
      hide Kept;
      ValueAppend(day, Kept(sell, init), p);
    }
  }

  lemma {:induction false} ValuePositive(day: Day, hs: seq<Pos>)
    requires Priced(day, hs) && SharesPositive(hs)
    ensures Value(day, hs) >= 0.0
    ensures hs != [] ==> Value(day, hs) > 0.0
  {
    if hs != [] {
      var init, p := hs[..|hs| - 1], hs[|hs| - 1];
      ValuePositive(day, init);
      assert p in hs && Amount(day, p) > 0.0;
    }
  }

  lemma {:induction false} SoldNonNegative(day: Day, sell: Pos -> bool, hs: seq<Pos>)
    requires Priced(day, hs) && SharesPositive(hs)
    ensures 0.0 <= SoldValue(day, sell, hs)
  {
    if hs != [] {
      var p := hs[|hs| - 1];
      SoldNonNegative(day, sell, hs[..|hs| - 1]);
      assert p in hs && Amount(day, p) > 0.0;
    }
  }

  lemma {:induction false} KeptSubset(sell: Pos -> bool, hs: seq<Pos>)
    ensures forall p :: p in Kept(sell, hs) <==> p in hs && !sell(p)
    ensures |Kept(sell, hs)| <= |hs|
  {
    if hs != [] {
      KeptSubset(sell, hs[..|hs| - 1]);
      assert hs == hs[..|hs| - 1] + [hs[|hs| - 1]];
    }
  }

  /** Selling moves value into cash and loses exactly the selling cost of what was sold. */
  lemma LiquidateWorth(day: Day, sell: Pos -> bool, b: Book)
    ensures var r, sold := Liquidate(day, sell, b), SoldValue(day, sell, b.holdings);
            && Worth(day, r) == Worth(day, b) - SELL_COST * sold
            && r.turn == b.turn + sold
  {
    ValueSplit(day, sell, b.holdings);
  }

  lemma ShareMoney(money: real, c: real)
    requires c > 0.0
    ensures SharesFor(money, c) * c == money / (1.0 + BUY_COST)
    ensures SharesFor(money, c) > 0.0 <==> money > 0.0
  {
    var m := money / (1.0 + BUY_COST);
    assert m / c * c == m;
    assert money > 0.0 <==> m > 0.0;
    if m > 0.0 { assert m / c > 0.0; } else { assert m / c <= 0.0; }
  }

  const BUY_LOSS := BUY_COST / (1.0 + BUY_COST)

  /** From `b` to `r` only buying happened: the money spent bought its worth less the buying cost. */
  ghost predicate Spent(day: Day, b: Book, r: Book) {
    && r.cash <= b.cash
    && (b.cash >= 0.0 ==> r.cash >= 0.0)
    && r.turn - b.turn == b.cash - r.cash
    && Worth(day, r) == Worth(day, b) - BUY_LOSS * (b.cash - r.cash)
  }

  lemma BuyOneSpent(day: Day, target: real, b: Book, a: nat)
    ensures Spent(day, b, BuyOne(day, target, b, a))
  {
    if day(a).Buyable() {
      var money := MinReal(target, b.cash);
      var sh := SharesFor(money, Px(day, a));
      ShareMoney(money, Px(day, a));
      ValueAppend(day, b.holdings, Pos(a, sh, false));
    }
  }

  lemma {:induction false} BuyAllSpent(day: Day, target: real, b: Book, buys: seq<nat>)
    ensures Spent(day, b, BuyAll(day, target, b, buys))
    decreases |buys|
  {
    if buys != [] && b.cash > 0.0 {
      BuyOneSpent(day, target, b, buys[0]);
      BuyAllSpent(day, target, BuyOne(day, target, b, buys[0]), buys[1..]);
    }
  }

  function Assets(hs: seq<Pos>): (r: seq<nat>) {
    seq(|hs|, i requires 0 <= i < |hs| => hs[i].a)
  }

  lemma AmountAdds(day: Day, p: Pos, add: real)
    ensures Amount(day, p.(shares := p.shares + add)) == Amount(day, p) + Amount(day, p.(shares := add))
  {
  }

  lemma {:induction false} ValueUpdate(day: Day, hs: seq<Pos>, r: nat, add: real)
    requires r < |hs|
    ensures Value(day, hs[r := hs[r].(shares := hs[r].shares + add)]) ==
            Value(day, hs) + Amount(day, hs[r].(shares := add))
  {
    hide Amount;
    var n := |hs| - 1;
    var hs' := hs[r := hs[r].(shares := hs[r].shares + add)];
    if r < n {
      ValueUpdate(day, hs[..n], r, add);
      assert hs'[..n] == hs[..n][r := hs[r].(shares := hs[r].shares + add)];
    } else {
      assert hs'[..n] == hs[..n];
      AmountAdds(day, hs[n], add);
    }
  }

  ghost predicate Quoted(day: Day, hs: seq<Pos>, ds: seq<Deficit>) {
    forall d :: d in ds ==> d.c > 0.0 && d.c == Px(day, d.a) && d.a in Assets(hs)
  }

  lemma TopUpOneSpent(day: Day, b: Book, d: Deficit)
    requires Quoted(day, b.holdings, [d])
    ensures Spent(day, b, TopUpOne(b, d))
    ensures Assets(TopUpOne(b, d).holdings) == Assets(b.holdings)
  {
    hide Value;
    assert d in [d];
    var money := MinReal(d.def, b.cash);
    var add := SharesFor(money, d.c);
    ShareMoney(money, d.c);
    hide SharesFor;
    var r := Find(b.holdings, d.a);
    assert r >= 0 by {
      var i :| 0 <= i < |b.holdings| && Assets(b.holdings)[i] == d.a;
      assert b.holdings[i].a == d.a;
    }
    ValueUpdate(day, b.holdings, r, add);
    assert Amount(day, b.holdings[r].(shares := add)) == add * d.c;
  }

  lemma {:induction false} TopUpSpent(day: Day, b: Book, ds: seq<Deficit>)
    requires forall i :: 0 <= i < |ds| ==> ds[i].c > 0.0
    requires Quoted(day, b.holdings, ds)
    ensures Spent(day, b, TopUp(b, ds))
    ensures Assets(TopUp(b, ds).holdings) == Assets(b.holdings)
    decreases |ds|
  {
    if ds != [] && b.cash > 0.0 {
      assert ds[0] in ds;
      TopUpOneSpent(day, b, ds[0]);
      assert forall d :: d in ds[1..] ==> d in ds;
      TopUpSpent(day, TopUpOne(b, ds[0]), ds[1..]);
    }
  }

  lemma {:induction false} DeficitsQuoted(day: Day, target: real, hs: seq<Pos>)
    ensures Quoted(day, hs, Deficits(day, target, hs))
  {
    if hs != [] {
      var n := |hs| - 1;
      DeficitsQuoted(day, target, hs[..n]);
      assert Assets(hs) == Assets(hs[..n]) + [hs[n].a];
    }
  }

  lemma SweepSpent(day: Day, ord: DefOrder, target: real, b: Book)
    requires IsDefOrder(ord)
    ensures Spent(day, b, Sweep(day, ord, target, b))
    ensures Assets(Sweep(day, ord, target, b).holdings) == Assets(b.holdings)
  {
    if b.cash > 0.0 && b.holdings != [] {
      var ds := Deficits(day, target, b.holdings);
      DeficitsQuoted(day, target, b.holdings);
      DeficitsPriced(day, target, b.holdings);
      OrderKeeps(ord, ds);
      TopUpSpent(day, b, ord(ds));
    }
  }

  // ---- the day's account ----

  function SoldToday(p: Params, day: Day, cands: seq<Cand>, b: Book): real
    requires p.Valid()
  {
    var plan := Decide(p, day, cands, b);
    SoldValue(day, DelistSel(day), b.holdings) + SoldValue(day, SellSel(day), plan.marked)
  }

  lemma {:induction false} ValueAgrees(day: Day, hs: seq<Pos>, gs: seq<Pos>)
    requires |hs| == |gs|
    requires forall i :: 0 <= i < |hs| ==> hs[i].a == gs[i].a && hs[i].shares == gs[i].shares
    ensures Value(day, hs) == Value(day, gs)
  {
    if hs != [] {
      ValueAgrees(day, hs[..|hs| - 1], gs[..|gs| - 1]);
    }
  }

  lemma SpentTrans(day: Day, a: Book, b: Book, c: Book)
    requires Spent(day, a, b) && Spent(day, b, c)
    ensures Spent(day, a, c)
  {
    var x, y := a.cash - b.cash, b.cash - c.cash;
    assert BUY_LOSS * (x + y) == BUY_LOSS * x + BUY_LOSS * y;
    assert a.cash - c.cash == x + y;
  }

  lemma ExecuteSpent(p: Params, ord: DefOrder, day: Day, plan: DayPlan)
    requires p.Valid() && IsDefOrder(ord)
    ensures Spent(day, SoldBook(day, plan), Execute(p, ord, day, plan))
  {
    var b := SoldBook(day, plan);
    var target := Target(p, day, b);
    var c := BuyAll(day, target, b, plan.buys);
    BuyAllSpent(day, target, b, plan.buys);
    SweepSpent(day, ord, target, c);
    SpentTrans(day, b, c, Sweep(day, ord, target, c));
  }

  /**
   * From a worth of `before`, `sold` was sold and then the book went from `s` to
   * `r` by buying alone: the end worth is `before` less the selling cost of what
   * was sold and the buying cost inside what was spent, and the turnover is what
   * was sold plus what was spent.
   */
  ghost predicate Accounts(day: Day, before: real, sold: real, s: Book, r: Book) {
    var spent := s.cash - r.cash;
    && spent >= 0.0
    && r.turn == sold + spent
    && Worth(day, r) == before - SELL_COST * sold - BUY_LOSS * spent
  }

  /** The account of a whole day; the sales include the forced ones. */
  lemma StepAccount(p: Params, ord: DefOrder, day: Day, cands: seq<Cand>, b: Book)
    requires p.Valid() && IsDefOrder(ord)
    ensures Accounts(day, Worth(day, b), SoldToday(p, day, cands, b),
                     SoldBook(day, Decide(p, day, cands, b)), StepBook(p, ord, day, cands, b))
  {
    SalesAccount(p, day, cands, b);
    BuyingAccount(p, ord, day, Decide(p, day, cands, b), Worth(day, b), SoldToday(p, day, cands, b));
  }

  /** The buying phases after a given account of the sales. */
  lemma BuyingAccount(p: Params, ord: DefOrder, day: Day, plan: DayPlan, before: real, sold: real)
    requires p.Valid() && IsDefOrder(ord)
    requires Worth(day, SoldBook(day, plan)) == before - SELL_COST * sold
    requires SoldBook(day, plan).turn == sold
    ensures Accounts(day, before, sold, SoldBook(day, plan), Execute(p, ord, day, plan))
  {
    ExecuteSpent(p, ord, day, plan);
  }

  /** The two selling phases of the day, delisting first. */
  lemma SalesAccount(p: Params, day: Day, cands: seq<Cand>, b: Book)
    requires p.Valid()
    ensures var s := SoldBook(day, Decide(p, day, cands, b));
            && Worth(day, s) == Worth(day, b) - SELL_COST * SoldToday(p, day, cands, b)
            && s.turn == SoldToday(p, day, cands, b)
  {
    var plan := Decide(p, day, cands, b);
    var marked := plan.start.(holdings := plan.marked);
    LiquidateWorth(day, DelistSel(day), b.(turn := 0.0));
    ValueAgrees(day, plan.start.holdings, plan.marked);
    LiquidateWorth(day, SellSel(day), marked);
    var x, y := SoldValue(day, DelistSel(day), b.holdings), SoldValue(day, SellSel(day), plan.marked);
    assert SELL_COST * (x + y) == SELL_COST * x + SELL_COST * y;
    assert Worth(day, SoldBook(day, plan)) == Worth(day, marked) - SELL_COST * y;
    assert Worth(day, marked) == Worth(day, plan.start);
    assert Worth(day, plan.start) == Worth(day, b) - SELL_COST * x;
  }
}
