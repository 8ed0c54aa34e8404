/**
 * What becomes of every asset on a day, told from the quotes, the candidates and the
 * entry book alone: who leaves, who stays, who comes in, and how large each position is
 * in the end.
 */
module EngineFate {
  import opened Common
  import opened EngineSpec
  import opened EngineLaws
  import opened EngineStructure
  import opened EngineSweep

  /** Among the first holdN * exitRatio candidates. */
  ghost predicate InExitRanks(p: Params, cands: seq<Cand>, a: nat) {
    exists k :: 0 <= k < |cands| && (k + 1) as real <= p.holdN as real * p.exitRatio && cands[k].a == a
  }

  /** A holding leaves when delisted, or out of the exit ranks with nothing in the way. */
  ghost predicate Leaves(p: Params, day: Day, cands: seq<Cand>, a: nat) {
    || day(a).delisted
    || (!InExitRanks(p, cands, a) && !day(a).limUp && !day(a).limDn && !day(a).susp && day(a).close.Some?)
  }

  predicate HasPrice(day: Day, a: nat) {
    day(a).close.Some? && day(a).close.value > 0.0
  }

  ghost predicate Held(hs: seq<Pos>, a: nat) {
    exists i :: 0 <= i < |hs| && hs[i].a == a
  }

  lemma HeldIs(hs: seq<Pos>, a: nat)
    ensures Held(hs, a) <==> a in Assets(hs)
    ensures !Held(hs, a) ==> ShareOf(hs, a) == 0.0
  {
    if Held(hs, a) {
      var i :| 0 <= i < |hs| && hs[i].a == a;
      assert Assets(hs)[i] == a;
    }
    if a in Assets(hs) {
      var i :| 0 <= i < |hs| && Assets(hs)[i] == a;
      assert hs[i].a == a;
    }
  }

  lemma ShareIs(hs: seq<Pos>, i: nat)
    requires Distinct(Assets(hs)) && i < |hs|
    ensures ShareOf(hs, hs[i].a) == hs[i].shares
  {
    FindUnique(hs, i);
  }

  lemma ExitRanks(p: Params, cands: seq<Cand>, a: nat)
    requires p.Valid()
    ensures InExitRanks(p, cands, a) <==> InPrefix(cands, a, Top(p.NExit(), cands))
  {
    var x := p.holdN as real * p.exitRatio;
    ExitCoversEntry(p);
    forall k | 0 <= k < |cands| && cands[k].a == a
      ensures (k + 1) as real <= x <==> k < p.NExit()
    {
    }
  }

  // ---- after the sales ----

  /** What the two sales leave of one holding. */
  lemma StaysIff(p: Params, day: Day, cands: seq<Cand>, b: Book, q: Pos)
    requires p.Valid()
    ensures var plan := Decide(p, day, cands, b);
      q in SoldBook(day, plan).holdings <==>
      exists h :: h in b.holdings && !Leaves(p, day, cands, h.a) && q == Marked(day, cands, p.NExit(), h)
  {
    var plan := Decide(p, day, cands, b);
    KeptSubset(DelistSel(day), b.holdings);
    KeptSubset(SellSel(day), plan.marked);
    hide Kept;
    MarkedIn(day, cands, p.NExit(), plan.start.holdings, q);
    if q in SoldBook(day, plan).holdings {
      var h :| h in plan.start.holdings && q == Marked(day, cands, p.NExit(), h);
      ExitRanks(p, cands, h.a);
    }
    if h :| h in b.holdings && !Leaves(p, day, cands, h.a) && q == Marked(day, cands, p.NExit(), h) {
      ExitRanks(p, cands, h.a);
      assert h in plan.start.holdings;
    }
  }

  lemma MarkedIn(day: Day, cands: seq<Cand>, n: nat, hs: seq<Pos>, q: Pos)
    ensures q in MarkAll(day, cands, n, hs) <==> exists h :: h in hs && q == Marked(day, cands, n, h)
  {
    if h :| h in hs && q == Marked(day, cands, n, h) {
      var i :| 0 <= i < |hs| && hs[i] == h;
      assert MarkAll(day, cands, n, hs)[i] == q;
    }
  }

  /** After the sales exactly the leaving holdings are gone, and the others are as they were. */
  lemma AfterSales(p: Params, day: Day, cands: seq<Cand>, b: Book, a: nat)
    requires p.Valid() && Sound(b) && Priced(day, b.holdings) && Distinct(CandAssets(cands))
    ensures var s := SoldBook(day, Decide(p, day, cands, b));
      && (Held(s.holdings, a) <==> Held(b.holdings, a) && !Leaves(p, day, cands, a))
      && (Held(s.holdings, a) ==> ShareOf(s.holdings, a) == ShareOf(b.holdings, a))
  {
    var plan := Decide(p, day, cands, b);
    var s := SoldBook(day, plan);
    PlanSound(p, day, cands, b);
    LiquidateSound(day, SellSel(day), plan.start.(holdings := plan.marked));
    hide Leaves, Decide, SoldBook;
    if Held(s.holdings, a) {
      var i :| 0 <= i < |s.holdings| && s.holdings[i].a == a;
      StaysIff(p, day, cands, b, s.holdings[i]);
      var h :| h in b.holdings && !Leaves(p, day, cands, h.a) && s.holdings[i] == Marked(day, cands, p.NExit(), h);
      var j :| 0 <= j < |b.holdings| && b.holdings[j] == h;
      ShareIs(s.holdings, i);
      ShareIs(b.holdings, j);
    }
    if Held(b.holdings, a) && !Leaves(p, day, cands, a) {
      var j :| 0 <= j < |b.holdings| && b.holdings[j].a == a;
      var q := Marked(day, cands, p.NExit(), b.holdings[j]);
      StaysIff(p, day, cands, b, q);
      assert b.holdings[j] in b.holdings;
      var i :| 0 <= i < |s.holdings| && s.holdings[i] == q;
    }
  }

  /** What the leaving holdings are worth. */
  ghost function LeavingValue(p: Params, day: Day, cands: seq<Cand>, hs: seq<Pos>): real {
    if hs == [] then 0.0
    else
      var h := hs[|hs| - 1];
      LeavingValue(p, day, cands, hs[..|hs| - 1]) +
      if Leaves(p, day, cands, h.a) && day(h.a).close.Some? then h.shares * day(h.a).close.value else 0.0
  }

  lemma MarkSnoc(day: Day, cands: seq<Cand>, n: nat, hs: seq<Pos>, h: Pos)
    ensures MarkAll(day, cands, n, hs + [h]) == MarkAll(day, cands, n, hs) + [Marked(day, cands, n, h)]
  {
  }

  lemma {:induction false} SoldSnoc(day: Day, sell: Pos -> bool, hs: seq<Pos>, h: Pos)
    ensures SoldValue(day, sell, hs + [h]) == SoldValue(day, sell, hs) + if sell(h) then Amount(day, h) else 0.0
  {
    assert (hs + [h])[..|hs|] == hs;
  }

  lemma OneLeaves(p: Params, day: Day, cands: seq<Cand>, h: Pos)
    requires p.Valid()
    ensures var m := Marked(day, cands, p.NExit(), h);
      && Amount(day, m) == Amount(day, h)
      && (DelistSel(day)(h) || SellSel(day)(m) <==> Leaves(p, day, cands, h.a))
  {
    ExitRanks(p, cands, h.a);
  }

  /** What delisting leaves, marked. */
  ghost function Remaining(p: Params, day: Day, cands: seq<Cand>, hs: seq<Pos>): seq<Pos>
    requires p.Valid()
  {
    MarkAll(day, cands, p.NExit(), Kept(DelistSel(day), hs))
  }

  lemma RemainingSnoc(p: Params, day: Day, cands: seq<Cand>, hs: seq<Pos>, h: Pos)
    requires p.Valid()
    ensures Remaining(p, day, cands, hs + [h]) ==
      if day(h.a).delisted then Remaining(p, day, cands, hs) else Remaining(p, day, cands, hs) + [Marked(day, cands, p.NExit(), h)]
  {
    KeptSnoc(DelistSel(day), hs, h);
    MarkSnoc(day, cands, p.NExit(), Kept(DelistSel(day), hs), h);
    hide Kept, MarkAll, Marked;
  }

  lemma LeavingSnoc(p: Params, day: Day, cands: seq<Cand>, hs: seq<Pos>, h: Pos)
    ensures LeavingValue(p, day, cands, hs + [h]) == LeavingValue(p, day, cands, hs) + if Leaves(p, day, cands, h.a) then Amount(day, h) else 0.0
  {
    assert (hs + [h])[..|hs|] == hs;
    hide Leaves;
  }

  /** Both sales together, the first by one rule and the second by another. */
  ghost function BothSold(p: Params, day: Day, cands: seq<Cand>, hs: seq<Pos>): real
    requires p.Valid()
  {
    SoldValue(day, DelistSel(day), hs) + SoldValue(day, SellSel(day), Remaining(p, day, cands, hs))
  }

  lemma BothSnoc(p: Params, day: Day, cands: seq<Cand>, hs: seq<Pos>, h: Pos)
    requires p.Valid()
    ensures BothSold(p, day, cands, hs + [h]) == BothSold(p, day, cands, hs) + if Leaves(p, day, cands, h.a) then Amount(day, h) else 0.0
  {
    var m := Marked(day, cands, p.NExit(), h);
    OneLeaves(p, day, cands, h);
    RemainingSnoc(p, day, cands, hs, h);
    SoldSnoc(day, DelistSel(day), hs, h);
    SoldSnoc(day, SellSel(day), Remaining(p, day, cands, hs), m);
    assert DelistSel(day)(h) == day(h.a).delisted;
    hide Remaining, SoldValue, Leaves, Marked, Amount;
  }

  lemma {:induction false} SoldIsLeaving(p: Params, day: Day, cands: seq<Cand>, hs: seq<Pos>)
    requires p.Valid()
    ensures BothSold(p, day, cands, hs) == LeavingValue(p, day, cands, hs)
  {
    if hs != [] {
      var n := |hs| - 1;
      hide *;
      SoldIsLeaving(p, day, cands, hs[..n]);
      BothSnoc(p, day, cands, hs[..n], hs[n]);
      LeavingSnoc(p, day, cands, hs[..n], hs[n]);
      assert hs[..n] + [hs[n]] == hs;
    }
  }

  /** What is sold on a day is what the leaving holdings are worth, and cash grows by that less the selling cost. */
  lemma SalesAreLeaving(p: Params, day: Day, cands: seq<Cand>, b: Book)
    requires p.Valid()
    ensures SoldToday(p, day, cands, b) == LeavingValue(p, day, cands, b.holdings)
    ensures SoldBook(day, Decide(p, day, cands, b)).cash == b.cash + LeavingValue(p, day, cands, b.holdings) * (1.0 - SELL_COST)
  {
    SoldIsLeaving(p, day, cands, b.holdings);
    hide SoldValue, LeavingValue, Kept, MarkAll;
  }

  // ---- after the buys ----

  lemma ShareSnoc(hs: seq<Pos>, q: Pos, x: nat)
    requires Distinct(Assets(hs)) && q.a !in Assets(hs)
    ensures ShareOf(hs + [q], x) == if x == q.a then q.shares else ShareOf(hs, x)
    ensures Held(hs + [q], x) <==> x == q.a || Held(hs, x)
  {
    assert Assets(hs + [q]) == Assets(hs) + [q.a];
    DistinctSnoc(Assets(hs), q.a);
    if x == q.a {
      ShareIs(hs + [q], |hs|);
    } else if Held(hs, x) {
      var i :| 0 <= i < |hs| && hs[i].a == x;
      ShareIs(hs, i);
      assert (hs + [q])[i] == hs[i];
      ShareIs(hs + [q], i);
    } else {
      HeldIs(hs, x);
      HeldIs(hs + [q], x);
    }
  }

  /** What the first i buys cost, when there is money for all of them. */
  ghost function Costs(day: Day, target: real, buys: seq<nat>, i: nat): real
    requires i <= |buys|
  {
    if i == 0 then 0.0 else Costs(day, target, buys, i - 1) + if HasPrice(day, buys[i - 1]) then target else 0.0
  }

  lemma {:induction false} CostsShift(day: Day, target: real, buys: seq<nat>, i: nat)
    requires 0 < i <= |buys|
    ensures Costs(day, target, buys, i) == (if HasPrice(day, buys[0]) then target else 0.0) + Costs(day, target, buys[1..], i - 1)
  {
    if i > 1 {
      CostsShift(day, target, buys, i - 1);
      assert buys[1..][i - 2] == buys[i - 1];
    }
  }

  lemma {:induction false} CostsGrow(day: Day, target: real, buys: seq<nat>, i: nat)
    requires i <= |buys| && target >= 0.0
    ensures Costs(day, target, buys, i) >= 0.0
  {
    if i > 0 {
      CostsGrow(day, target, buys, i - 1);
    }
  }

  /** The money for buy i: a full slot, or what the buys before it have left. */
  ghost function Money(day: Day, target: real, cash: real, buys: seq<nat>, i: nat): real
    requires i < |buys|
  {
    if HasPrice(day, buys[i]) then MinReal(target, MaxReal(0.0, cash - Costs(day, target, buys, i))) else 0.0
  }

  lemma MoneyShift(day: Day, target: real, cash: real, buys: seq<nat>, i: nat)
    requires 0 < i < |buys| && cash > 0.0 && target > 0.0
    ensures Money(day, target, cash, buys, i) ==
      Money(day, target, if HasPrice(day, buys[0]) then cash - MinReal(target, cash) else cash, buys[1..], i - 1)
  {
    CostsShift(day, target, buys, i);
    CostsGrow(day, target, buys[1..], i - 1);
    assert buys[1..][i - 1] == buys[i];
  }

  /** What a position is worth with its buying cost. */
  ghost function Cost(day: Day, hs: seq<Pos>, a: nat): real {
    ShareOf(hs, a) * Px(day, a) * (1.0 + BUY_COST)
  }

  lemma BoughtCost(money: real, c: real)
    requires c > 0.0
    ensures SharesFor(money, c) * c * (1.0 + BUY_COST) == money
  {
    ShareMoney(money, c);
    DivBack(money, 1.0 + BUY_COST);
  }

  /** One buy, with cash in hand. */
  lemma FirstBuy(day: Day, target: real, b: Book, a: nat, x: nat)
    requires b.cash > 0.0 && target > 0.0 && Distinct(Assets(b.holdings)) && !Held(b.holdings, a)
    ensures var c, money := BuyOne(day, target, b, a), if HasPrice(day, a) then MinReal(target, b.cash) else 0.0;
      && c.cash == b.cash - money >= 0.0 && Distinct(Assets(c.holdings))
      && (Held(c.holdings, x) <==> Held(b.holdings, x) || (x == a && money > 0.0))
      && (x != a ==> ShareOf(c.holdings, x) == ShareOf(b.holdings, x))
      && (x == a ==> Cost(day, c.holdings, x) == money)
  {
    HeldIs(b.holdings, a);
    if HasPrice(day, a) {
      var money := MinReal(target, b.cash);
      var q := Pos(a, SharesFor(money, Px(day, a)), false);
      ShareMoney(money, Px(day, a));
      BoughtCost(money, Px(day, a));
      ShareSnoc(b.holdings, q, x);
      assert Assets(b.holdings + [q]) == Assets(b.holdings) + [a];
      DistinctSnoc(Assets(b.holdings), a);
      hide SharesFor, ShareOf, Assets, Held;
    }
  }

  /** With the cash gone nothing more is bought. */
  lemma NoMoney(day: Day, target: real, buys: seq<nat>)
    requires target > 0.0
    ensures 0.0 == MaxReal(0.0, 0.0 - Costs(day, target, buys, |buys|))
    ensures forall i :: 0 <= i < |buys| ==> Money(day, target, 0.0, buys, i) == 0.0
  {
    CostsGrow(day, target, buys, |buys|);
    forall i | 0 <= i < |buys|
      ensures Money(day, target, 0.0, buys, i) == 0.0
    {
      CostsGrow(day, target, buys, i);
    }
  }

  /** Every buy gets a full slot while the cash lasts, what is left then, and nothing after; the rest is not touched. */
  ghost predicate Funded(day: Day, target: real, b: Book, buys: seq<nat>, r: Book, x: nat) {
    && r.cash == MaxReal(0.0, b.cash - Costs(day, target, buys, |buys|))
    && (x !in buys ==> (Held(r.holdings, x) <==> Held(b.holdings, x)) && ShareOf(r.holdings, x) == ShareOf(b.holdings, x))
    && forall i :: 0 <= i < |buys| && buys[i] == x ==>
         (Held(r.holdings, x) <==> Money(day, target, b.cash, buys, i) > 0.0)
         && Cost(day, r.holdings, x) == Money(day, target, b.cash, buys, i)
  }

  lemma {:induction false} BuysFunded(day: Day, target: real, b: Book, buys: seq<nat>, x: nat)
    requires b.cash >= 0.0 && target > 0.0 && Distinct(Assets(b.holdings)) && Distinct(buys)
    requires forall a :: a in buys ==> !Held(b.holdings, a)
    ensures Funded(day, target, b, buys, BuyAll(day, target, b, buys), x)
    decreases |buys|
  {
    if buys == [] {
    } else if b.cash <= 0.0 {
      NoMoney(day, target, buys);
      if x in buys {
        HeldIs(b.holdings, x);
      }
    } else {
      var a, rest, c := buys[0], buys[1..], BuyOne(day, target, b, buys[0]);
      forall y | y in rest
        ensures y in buys && y != a && !Held(c.holdings, y)
      {
        FirstBuy(day, target, b, a, y);
      }
      FirstBuy(day, target, b, a, x);
      BuysFunded(day, target, c, rest, x);
      hide BuyOne, ShareOf, Held, Costs, Cost, Money;
      FundedNext(day, target, b, c, buys, BuyAll(day, target, b, buys), x);
    }
  }

  lemma MoneyNext(day: Day, target: real, cash: real, left: real, buys: seq<nat>)
    requires buys != [] && cash > 0.0 && target > 0.0
    requires left == cash - (if HasPrice(day, buys[0]) then MinReal(target, cash) else 0.0)
    ensures Money(day, target, cash, buys, 0) == cash - left
    ensures MaxReal(0.0, cash - Costs(day, target, buys, |buys|)) == MaxReal(0.0, left - Costs(day, target, buys[1..], |buys| - 1))
    ensures forall i :: 0 < i < |buys| ==> Money(day, target, cash, buys, i) == Money(day, target, left, buys[1..], i - 1)
  {
    CostsShift(day, target, buys, |buys|);
    CostsGrow(day, target, buys[1..], |buys| - 1);
    forall i | 0 < i < |buys|
      ensures Money(day, target, cash, buys, i) == Money(day, target, left, buys[1..], i - 1)
    {
      MoneyShift(day, target, cash, buys, i);
    }
  }

  lemma FundedNext(day: Day, target: real, b: Book, c: Book, buys: seq<nat>, r: Book, x: nat)
    requires buys != [] && b.cash > 0.0 && target > 0.0 && Distinct(buys) && Funded(day, target, c, buys[1..], r, x)
    requires c.cash == b.cash - (if HasPrice(day, buys[0]) then MinReal(target, b.cash) else 0.0)
    requires x != buys[0] ==> (Held(c.holdings, x) <==> Held(b.holdings, x)) && ShareOf(c.holdings, x) == ShareOf(b.holdings, x)
    requires x == buys[0] ==>
      && (Held(c.holdings, x) <==> c.cash < b.cash) && Cost(day, c.holdings, x) == b.cash - c.cash
    ensures Funded(day, target, b, buys, r, x)
  {
    var rest := buys[1..];
    assert buys == [buys[0]] + rest;
    MoneyNext(day, target, b.cash, c.cash, buys);
    hide ShareOf, Held, Money, Costs;
    assert forall i :: 0 < i < |buys| ==> rest[i - 1] == buys[i];
    hide Cost;
    if x == buys[0] {
      assert x !in rest;
      SameCost(day, c.holdings, r.holdings, x);
    }
  }

  lemma SameCost(day: Day, hs: seq<Pos>, hs': seq<Pos>, x: nat)
    requires ShareOf(hs', x) == ShareOf(hs, x)
    ensures Cost(day, hs', x) == Cost(day, hs, x)
  {
  }

  // ---- after the sweep ----

  /** What a position is worth. */
  ghost function Size(day: Day, hs: seq<Pos>, a: nat): real {
    ShareOf(hs, a) * Px(day, a)
  }

  predicate Trades(day: Day, a: nat) {
    !day(a).susp && !day(a).limUp && !day(a).limDn
  }

  /**
   * The sweep only adds, to trading positions below target, never beyond target; and when
   * it leaves cash, each of those has cost the target in the end.
   */
  ghost predicate Swept(day: Day, target: real, b: Book, r: Book, x: nat) {
    && (Held(r.holdings, x) <==> Held(b.holdings, x))
    && ShareOf(r.holdings, x) >= ShareOf(b.holdings, x)
    && (!Trades(day, x) || Size(day, b.holdings, x) >= target ==> ShareOf(r.holdings, x) == ShareOf(b.holdings, x))
    && Size(day, r.holdings, x) <= MaxReal(target, Size(day, b.holdings, x))
    && (r.cash > 0.0 && Held(b.holdings, x) && Trades(day, x) ==> Cost(day, r.holdings, x) >= target)
  }

  lemma TopUpSize(day: Day, target: real, size: real, sh: real, more: real, money: real, c: real)
    requires c > 0.0 && size == sh * c && 0.0 <= money <= target - size && more == sh + SharesFor(money, c)
    ensures more >= sh && more * c <= target
    ensures size >= 0.0 && money == target - size ==> more * c * (1.0 + BUY_COST) >= target
  {
    BoughtCost(money, c);
    ShareMoney(money, c);
    var add := SharesFor(money, c);
    assert more * c == size + add * c;
    assert add * c * (1.0 + BUY_COST) == money;
    Fraction(add * c, money);
    if size >= 0.0 && money == target - size {
      assert more * c * (1.0 + BUY_COST) == size * (1.0 + BUY_COST) + money;
    }
  }

  lemma Fraction(x: real, money: real)
    requires x * (1.0 + BUY_COST) == money >= 0.0
    ensures 0.0 <= x <= money
  {
  }

  lemma AtSize(day: Day, target: real, hs: seq<Pos>, i: nat)
    requires Distinct(Assets(hs)) && i < |hs| && Sweepable(day, target, hs[i])
    ensures Trades(day, hs[i].a) && Size(day, hs, hs[i].a) < target && Held(hs, hs[i].a)
  {
    ShareIs(hs, i);
    hide ShareOf;
  }

  lemma NoDeficit(day: Day, target: real, b: Book, x: nat, d: Deficit)
    requires Sound(b) && (!Trades(day, x) || Size(day, b.holdings, x) >= target || !Held(b.holdings, x))
    requires d in Deficits(day, target, b.holdings)
    ensures d.a != x
  {
    DeficitOf(day, target, b.holdings, d);
    hide Deficits, ShareOf, Sweepable, Trades, Size, Held;
    var i :| 0 <= i < |b.holdings| && b.holdings[i].a == d.a && Sweepable(day, target, b.holdings[i]);
    AtSize(day, target, b.holdings, i);
  }

  lemma Unsweepable(day: Day, ord: DefOrder, target: real, b: Book, x: nat)
    requires IsDefOrder(ord) && Sound(b) && (!Trades(day, x) || Size(day, b.holdings, x) >= target || !Held(b.holdings, x))
    ensures forall d :: d in ord(Deficits(day, target, b.holdings)) ==> d.a != x
  {
    OrderKeeps(ord, Deficits(day, target, b.holdings));
    hide Sound, Trades, Size, Held, Deficits, IsDefOrder;
    forall d | d in ord(Deficits(day, target, b.holdings))
      ensures d.a != x
    {
      NoDeficit(day, target, b, x, d);
    }
  }

  /** A trading position below target is paid its own deficit, in part or in full. */
  lemma OwnDeficit(day: Day, ord: DefOrder, target: real, b: Book, x: nat) returns (i: nat)
    requires IsDefOrder(ord) && Sound(b) && Priced(day, b.holdings)
    requires Held(b.holdings, x) && Trades(day, x) && Size(day, b.holdings, x) < target
    ensures var ds := ord(Deficits(day, target, b.holdings));
      i < |ds| && ds[i] == Deficit(target - Size(day, b.holdings, x), x, Px(day, x)) && Px(day, x) > 0.0
  {
    var j :| 0 <= j < |b.holdings| && b.holdings[j].a == x;
    ShareIs(b.holdings, j);
    assert b.holdings[j] in b.holdings;
    hide Deficits, ShareOf, IsDefOrder;
    var d := Deficit(target - Size(day, b.holdings, x), x, Px(day, x));
    assert Sweepable(day, target, b.holdings[j]) && d.def == target - Amount(day, b.holdings[j]);
    hide Sweepable;
    DeficitOf(day, target, b.holdings, d);
    var ds := Deficits(day, target, b.holdings);
    OrderKeeps(ord, ds);
    i :| 0 <= i < |ord(ds)| && ord(ds)[i] == d;
  }

  lemma PositionsPositive(day: Day, b: Book, x: nat)
    requires Sound(b) && Priced(day, b.holdings)
    ensures Held(b.holdings, x) ==> Px(day, x) > 0.0 && ShareOf(b.holdings, x) > 0.0 && Size(day, b.holdings, x) > 0.0
    ensures !Held(b.holdings, x) ==> ShareOf(b.holdings, x) == 0.0
    ensures Cost(day, b.holdings, x) >= Size(day, b.holdings, x) >= 0.0
  {
    HeldIs(b.holdings, x);
    if Held(b.holdings, x) {
      var i :| 0 <= i < |b.holdings| && b.holdings[i].a == x;
      ShareIs(b.holdings, i);
      assert b.holdings[i] in b.holdings;
    }
  }

  lemma PaidAt(day: Day, ord: DefOrder, target: real, b: Book, ds: seq<Deficit>, i: nat)
    requires IsDefOrder(ord) && Sound(b) && b.cash > 0.0 && ds == ord(Deficits(day, target, b.holdings))
    requires i < |ds| && ds[i].c > 0.0
    ensures var r, money := Sweep(day, ord, target, b), Paid(b.cash, ds, i);
      && ShareOf(r.holdings, ds[i].a) == ShareOf(b.holdings, ds[i].a) + SharesFor(money, ds[i].c)
      && 0.0 <= money <= ds[i].def && (r.cash > 0.0 ==> money == ds[i].def)
  {
    SweepWaterfall(day, ord, target, b);
    assert ds[i].def > 0.0;
    hide Sweep, Deficits, ShareOf, SharesFor, Assets, Sound, Descending;
  }

  lemma SizeAfter(day: Day, target: real, hs: seq<Pos>, hs': seq<Pos>, x: nat, money: real)
    requires Px(day, x) > 0.0 && ShareOf(hs', x) == ShareOf(hs, x) + SharesFor(money, Px(day, x))
    requires 0.0 <= money <= target - Size(day, hs, x) && Size(day, hs, x) >= 0.0
    ensures ShareOf(hs', x) >= ShareOf(hs, x) && Size(day, hs', x) <= target
    ensures money == target - Size(day, hs, x) ==> Cost(day, hs', x) >= target
  {
    hide ShareOf, SharesFor;
    TopUpSize(day, target, Size(day, hs, x), ShareOf(hs, x), ShareOf(hs', x), money, Px(day, x));
  }

  lemma SweptPaid(day: Day, ord: DefOrder, target: real, b: Book, x: nat)
    requires IsDefOrder(ord) && Sound(b) && Priced(day, b.holdings) && b.cash > 0.0
    requires Held(b.holdings, x) && Trades(day, x) && Size(day, b.holdings, x) < target
    ensures var r := Sweep(day, ord, target, b);
      && ShareOf(r.holdings, x) >= ShareOf(b.holdings, x) && Size(day, r.holdings, x) <= target
      && (r.cash > 0.0 ==> Cost(day, r.holdings, x) >= target)
  {
    hide *;
    PositionsPositive(day, b, x);
    var i := OwnDeficit(day, ord, target, b, x);
    var ds, r := ord(Deficits(day, target, b.holdings)), Sweep(day, ord, target, b);
    PaidAt(day, ord, target, b, ds, i);
    SizeAfter(day, target, b.holdings, r.holdings, x, Paid(b.cash, ds, i));
  }

  lemma NotPaid(day: Day, ord: DefOrder, target: real, b: Book, x: nat)
    requires IsDefOrder(ord) && Sound(b) && Priced(day, b.holdings) && b.cash > 0.0
    requires !Held(b.holdings, x) || !Trades(day, x) || Size(day, b.holdings, x) >= target
    ensures ShareOf(Sweep(day, ord, target, b).holdings, x) == ShareOf(b.holdings, x)
  {
    Unsweepable(day, ord, target, b, x);
    SweepSound(day, ord, target, b);
    HeldIs(b.holdings, x);
    HeldIs(Sweep(day, ord, target, b).holdings, x);
    SweepWaterfall(day, ord, target, b);
    hide Sweep, Deficits, Paid, ShareOf, SharesFor, Held, Assets;
  }

  lemma SweepSweeps(day: Day, ord: DefOrder, target: real, b: Book, x: nat)
    requires IsDefOrder(ord) && Sound(b) && Priced(day, b.holdings)
    ensures Swept(day, target, b, Sweep(day, ord, target, b), x)
  {
    PositionsPositive(day, b, x);
    if b.cash <= 0.0 {
      hide Held, ShareOf, Px;
    } else {
      SweepHolds(day, ord, target, b, x);
      hide IsDefOrder, Sweep, Held, ShareOf, Sound, Priced;
      if Held(b.holdings, x) && Trades(day, x) && Size(day, b.holdings, x) < target {
        SweptPaid(day, ord, target, b, x);
      } else {
        NotPaid(day, ord, target, b, x);
      }
    }
  }

  lemma SweepHolds(day: Day, ord: DefOrder, target: real, b: Book, x: nat)
    requires IsDefOrder(ord) && Sound(b) && Priced(day, b.holdings)
    ensures Held(Sweep(day, ord, target, b).holdings, x) <==> Held(b.holdings, x)
  {
    SweepSound(day, ord, target, b);
    HeldIs(b.holdings, x);
    HeldIs(Sweep(day, ord, target, b).holdings, x);
    hide Sweep, Held;
  }

  // ---- who is bought ----

  /** Keeps its slot: in the exit ranks, or limit-flagged. */
  ghost predicate KeepsSlot(p: Params, day: Day, cands: seq<Cand>, a: nat) {
    !day(a).delisted && (InExitRanks(p, cands, a) || day(a).limUp || day(a).limDn)
  }

  /** How many holdings keep their slot. */
  ghost function Keeping(p: Params, day: Day, cands: seq<Cand>, hs: seq<Pos>): nat {
    if hs == [] then 0
    else Keeping(p, day, cands, hs[..|hs| - 1]) + if KeepsSlot(p, day, cands, hs[|hs| - 1].a) then 1 else 0
  }

  lemma CountSnoc(hs: seq<Pos>, h: Pos)
    ensures CountIntent(hs + [h]) == CountIntent(hs) + if h.toSell then 1 else 0
  {
    assert (hs + [h])[..|hs|] == hs;
  }

  lemma {:induction false} KeepingIs(p: Params, day: Day, cands: seq<Cand>, hs: seq<Pos>)
    requires p.Valid()
    ensures var marked := MarkAll(day, cands, p.NExit(), Kept(DelistSel(day), hs));
      |marked| - CountIntent(marked) == Keeping(p, day, cands, hs)
  {
    if hs != [] {
      var n := |hs| - 1;
      var h := hs[n];
      KeepingIs(p, day, cands, hs[..n]);
      ExitRanks(p, cands, h.a);
      assert hs[..n] + [h] == hs;
      KeptSnoc(DelistSel(day), hs[..n], h);
      var kept := Kept(DelistSel(day), hs[..n]);
      MarkSnoc(day, cands, p.NExit(), kept, h);
      CountSnoc(MarkAll(day, cands, p.NExit(), kept), Marked(day, cands, p.NExit(), h));
      hide Kept, CountIntent, MarkAll, InExitRanks, InPrefix;
    }
  }

  /** A candidate of the first holdN ranks that no limit flags and that is not held, unless what is held of it is delisted. */
  ghost predicate Open(p: Params, day: Day, cands: seq<Cand>, b: Book, k: nat) {
    && k < |cands| && k < p.holdN && !day(cands[k].a).limUp && !day(cands[k].a).limDn
    && (Held(b.holdings, cands[k].a) ==> day(cands[k].a).delisted)
  }

  ghost function OpenBefore(p: Params, day: Day, cands: seq<Cand>, b: Book, k: nat): set<nat> {
    set j: nat | j < k && Open(p, day, cands, b, j)
  }

  /** Fewer open candidates stand ahead of it than there are free slots. */
  ghost predicate Chosen(p: Params, day: Day, cands: seq<Cand>, b: Book, k: nat) {
    Open(p, day, cands, b, k) && |OpenBefore(p, day, cands, b, k)| < p.holdN - Keeping(p, day, cands, b.holdings)
  }

  lemma WantedIsOpen(p: Params, day: Day, cands: seq<Cand>, b: Book, k: nat)
    requires p.Valid() && k < Top(p.holdN, cands)
    ensures Wanted(day, Decide(p, day, cands, b).marked, cands[k]) <==> Open(p, day, cands, b, k)
  {
    var plan, a := Decide(p, day, cands, b), cands[k].a;
    ExitCoversEntry(p);
    assert InPrefix(cands, a, Top(p.NExit(), cands));
    KeptSubset(DelistSel(day), b.holdings);
    var r := Find(plan.marked, a);
    if r >= 0 {
      assert plan.start.holdings[r].a == a && plan.start.holdings[r] in b.holdings;
    }
    if Held(b.holdings, a) && !day(a).delisted {
      var i :| 0 <= i < |b.holdings| && b.holdings[i].a == a;
      assert b.holdings[i] in b.holdings;
      var j :| 0 <= j < |plan.start.holdings| && plan.start.holdings[j] == b.holdings[i];
      assert plan.marked[j].a == a;
    }
  }

  lemma OpenNext(p: Params, day: Day, cands: seq<Cand>, b: Book, k: nat)
    ensures OpenBefore(p, day, cands, b, k + 1) == OpenBefore(p, day, cands, b, k) + if Open(p, day, cands, b, k) then {k} else {}
  {
  }

  lemma {:induction false} WantedCounts(p: Params, day: Day, cands: seq<Cand>, b: Book, k: nat)
    requires p.Valid() && k <= Top(p.holdN, cands)
    ensures |WantedIn(day, Decide(p, day, cands, b).marked, cands[..k])| == |OpenBefore(p, day, cands, b, k)|
  {
    hide Wanted, Open, Decide;
    if k == 0 {
      assert OpenBefore(p, day, cands, b, 0) == {};
    } else {
      WantedCounts(p, day, cands, b, k - 1);
      WantedIsOpen(p, day, cands, b, k - 1);
      OpenNext(p, day, cands, b, k - 1);
      assert cands[..k][..k - 1] == cands[..k - 1];
    }
  }

  lemma {:induction false} WantedPrefix(day: Day, hs: seq<Pos>, cands: seq<Cand>, k: nat)
    requires k <= |cands|
    ensures WantedIn(day, hs, cands[..k]) <= WantedIn(day, hs, cands)
    decreases |cands| - k
  {
    hide Wanted;
    if k < |cands| {
      WantedPrefix(day, hs, cands, k + 1);
      assert cands[..k + 1][..k] == cands[..k];
    } else {
      assert cands[..k] == cands;
    }
  }

  /** Where a wanted candidate stands among the wanted: behind those ahead of it. */
  lemma WantedPlace(day: Day, hs: seq<Pos>, cands: seq<Cand>, k: nat)
    requires k < |cands| && Distinct(CandAssets(cands))
    ensures var w := WantedIn(day, hs, cands); var i := |WantedIn(day, hs, cands[..k])|;
      && (Wanted(day, hs, cands[k]) ==> i < |w| && w[i] == cands[k].a)
      && (!Wanted(day, hs, cands[k]) ==> cands[k].a !in w) && Distinct(w)
  {
    WantedPrefix(day, hs, cands, k + 1);
    WantedSound(day, hs, cands);
    assert cands[..k + 1][..k] == cands[..k];
    if !Wanted(day, hs, cands[k]) {
      NotWanted(day, hs, cands, cands[k].a);
    }
  }

  lemma {:induction false} NotWanted(day: Day, hs: seq<Pos>, cands: seq<Cand>, a: nat)
    requires HeldKept(hs, a) || day(a).Limited()
    ensures a !in WantedIn(day, hs, cands)
  {
    WantedSound(day, hs, cands);
  }

  lemma AtPlace(all: seq<nat>, i: nat, a: nat, n: int)
    requires Distinct(all) && i < |all| && all[i] == a
    ensures a in (if n <= 0 then [] else if n < |all| then all[..n] else all) <==> i < n
  {
  }

  /**
   * The buy list, exactly: the candidate of rank k is on it if and only if it is open and
   * fewer open ones stand ahead of it than slots are free.
   */
  lemma BuysExact(p: Params, day: Day, cands: seq<Cand>, b: Book, k: nat)
    requires p.Valid() && Distinct(CandAssets(cands)) && k < |cands|
    ensures cands[k].a in Decide(p, day, cands, b).buys <==> Chosen(p, day, cands, b, k)
  {
    var plan := Decide(p, day, cands, b);
    BuyListSound(day, p.holdN, plan.marked, cands);
    KeepingIs(p, day, cands, b.holdings);
    if k < p.holdN {
      var top := cands[..Top(p.holdN, cands)];
      assert CandAssets(top) == CandAssets(cands)[..|top|];
      WantedIsOpen(p, day, cands, b, k);
      WantedCounts(p, day, cands, b, k);
      assert top[..k] == cands[..k];
      WantedPlace(day, plan.marked, top, k);
      hide Wanted, WantedIn, Open, OpenBefore, Keeping, CandAssets;
      var all := WantedIn(day, plan.marked, top);
      if Open(p, day, cands, b, k) {
        AtPlace(all, |WantedIn(day, plan.marked, cands[..k])|, cands[k].a, Slots(p.holdN, plan.marked));
      }
    } else {
      assert CandAssets(cands)[k] == cands[k].a;
      assert forall j :: 0 <= j < k ==> CandAssets(cands)[j] == cands[j].a;
    }
  }

  // ---- the whole day ----

  /** What the kernel asks of a day. */
  ghost predicate Ready(p: Params, ord: DefOrder, day: Day, cands: seq<Cand>, b: Book) {
    && p.Valid() && IsDefOrder(ord) && Sound(b) && Priced(day, b.holdings)
    && Worth(day, b) > 0.0 && Distinct(CandAssets(cands))
  }

  /** The worth once the leaving holdings are sold, by the entry book alone. */
  ghost function WorthAfterSales(p: Params, day: Day, cands: seq<Cand>, b: Book): real {
    Worth(day, b) - SELL_COST * LeavingValue(p, day, cands, b.holdings)
  }

  /** An equal slot of that worth. */
  ghost function Slot(p: Params, day: Day, cands: seq<Cand>, b: Book): real
    requires p.Valid()
  {
    WorthAfterSales(p, day, cands, b) / p.holdN as real
  }

  lemma SlotIs(p: Params, ord: DefOrder, day: Day, cands: seq<Cand>, b: Book)
    requires Ready(p, ord, day, cands, b)
    ensures var plan := Decide(p, day, cands, b); var s := SoldBook(day, plan);
      && Target(p, day, s) == Slot(p, day, cands, b) > 0.0 && Sound(s) && Priced(day, s.holdings)
      && Distinct(plan.buys) && forall a :: a in plan.buys ==> !Held(s.holdings, a)
  {
    var plan := Decide(p, day, cands, b);
    SalesAccount(p, day, cands, b);
    SalesAreLeaving(p, day, cands, b);
    PlanSound(p, day, cands, b);
    LiquidateSound(day, SellSel(day), plan.start.(holdings := plan.marked));
    DivSign(WorthAfterSales(p, day, cands, b), p.holdN as real);
    hide Worth, LeavingValue, Decide, SoldToday, Sound, Priced, CandAssets;
    forall a | a in plan.buys
      ensures !Held(SoldBook(day, plan).holdings, a)
    {
      HeldIs(SoldBook(day, plan).holdings, a);
    }
  }

  /** The book between the buys and the sweep, and the one after it. */
  lemma DayParts(p: Params, ord: DefOrder, day: Day, cands: seq<Cand>, b: Book, x: nat)
    requires Ready(p, ord, day, cands, b)
    ensures var plan := Decide(p, day, cands, b);
      var s, c, r := SoldBook(day, plan), BoughtBook(p, day, plan), StepBook(p, ord, day, cands, b);
      && Funded(day, Slot(p, day, cands, b), s, plan.buys, c, x) && Swept(day, Slot(p, day, cands, b), c, r, x)
      && Sound(c) && Priced(day, c.holdings)
  {
    var plan := Decide(p, day, cands, b);
    SlotIs(p, ord, day, cands, b);
    var s, t := SoldBook(day, plan), Slot(p, day, cands, b);
    hide Decide, SoldBook, Target, Slot, Held, Funded, Swept, BuyAll, Sweep;
    BuysFunded(day, t, s, plan.buys, x);
    forall a | a in plan.buys
      ensures a !in Assets(s.holdings)
    {
      HeldIs(s.holdings, a);
    }
    BuyAllSound(day, t, s, plan.buys);
    SweepSweeps(day, ord, t, BuyAll(day, t, s, plan.buys), x);
  }

  /** Comes in: chosen, and with a positive price. */
  ghost predicate Enters(p: Params, day: Day, cands: seq<Cand>, b: Book, a: nat) {
    HasPrice(day, a) && exists k :: 0 <= k < |cands| && cands[k].a == a && Chosen(p, day, cands, b, k)
  }

  lemma BuysEnter(p: Params, ord: DefOrder, day: Day, cands: seq<Cand>, b: Book, a: nat)
    requires Ready(p, ord, day, cands, b)
    ensures a in Decide(p, day, cands, b).buys && HasPrice(day, a) <==> Enters(p, day, cands, b, a)
  {
    var plan := Decide(p, day, cands, b);
    BuyListSound(day, p.holdN, plan.marked, cands);
    hide Decide, Chosen, Slots;
    if a in plan.buys {
      var k :| 0 <= k < |cands| && cands[k].a == a;
      BuysExact(p, day, cands, b, k);
    }
    if k :| 0 <= k < |cands| && cands[k].a == a && Chosen(p, day, cands, b, k) {
      BuysExact(p, day, cands, b, k);
    }
  }

  /**
   * The fate of every asset on a day. What is held at the end was held and did not
   * leave, or came in. What was held and does not leave is still held, with at least the
   * shares it had, and with exactly those when it is suspended or limit-flagged. What
   * leaves without being delisted is gone.
   */
  lemma StepFate(p: Params, ord: DefOrder, day: Day, cands: seq<Cand>, b: Book, a: nat)
    requires Ready(p, ord, day, cands, b)
    ensures var r := StepBook(p, ord, day, cands, b); var stays := Held(b.holdings, a) && !Leaves(p, day, cands, a);
      && (Held(r.holdings, a) ==> stays || Enters(p, day, cands, b, a))
      && (stays ==> Held(r.holdings, a) && !Enters(p, day, cands, b, a) && ShareOf(r.holdings, a) >= ShareOf(b.holdings, a))
      && (stays && !Trades(day, a) ==> ShareOf(r.holdings, a) == ShareOf(b.holdings, a))
      && (Held(b.holdings, a) && Leaves(p, day, cands, a) && !day(a).delisted ==> !Held(r.holdings, a))
  {
    var plan := Decide(p, day, cands, b);
    DayParts(p, ord, day, cands, b, a);
    SlotIs(p, ord, day, cands, b);
    AfterSales(p, day, cands, b, a);
    BuysEnter(p, ord, day, cands, b, a);
    NoMoneyNoPrice(day, Slot(p, day, cands, b), SoldBook(day, plan).cash, plan.buys, a);
    OpenNotHeld(p, day, cands, b, a);
    hide Decide, SoldBook, BoughtBook, StepBook, Held, ShareOf, Leaves, Slot, Chosen, Money, Costs, Cost, Size, Sound, Priced;
  }

  lemma NoMoneyNoPrice(day: Day, target: real, cash: real, buys: seq<nat>, a: nat)
    ensures forall i :: 0 <= i < |buys| && buys[i] == a && Money(day, target, cash, buys, i) > 0.0 ==> HasPrice(day, a)
  {
  }

  /** What comes in was not held, or left by delisting. */
  lemma OpenNotHeld(p: Params, day: Day, cands: seq<Cand>, b: Book, a: nat)
    ensures Enters(p, day, cands, b, a) && Held(b.holdings, a) ==> day(a).delisted && Leaves(p, day, cands, a)
  {
  }

  lemma CostSize(x: real, size: real)
    requires size * (1.0 + BUY_COST) == x >= 0.0
    ensures 0.0 <= size <= x
  {
  }

  lemma MoneyBounds(day: Day, slot: real, cash: real, buys: seq<nat>, i: nat)
    requires i < |buys| && slot > 0.0
    ensures 0.0 <= Money(day, slot, cash, buys, i) <= slot
  {
  }

  lemma BoughtSize(day: Day, slot: real, s: Book, buys: seq<nat>, c: Book, a: nat)
    requires Funded(day, slot, s, buys, c, a) && slot > 0.0 && Size(day, s.holdings, a) >= 0.0
    ensures Size(day, c.holdings, a) <= MaxReal(slot, Size(day, s.holdings, a))
  {
    hide Held, Money, Costs, ShareOf;
    if a in buys {
      var i :| 0 <= i < |buys| && buys[i] == a;
      MoneyBounds(day, slot, s.cash, buys, i);
      CostSize(Money(day, slot, s.cash, buys, i), Size(day, c.holdings, a));
    }
  }

  lemma CostGrows(day: Day, slot: real, c: Book, r: Book, a: nat)
    requires Swept(day, slot, c, r, a) && Sound(c) && Priced(day, c.holdings)
    ensures Cost(day, r.holdings, a) >= Cost(day, c.holdings, a)
  {
    PositionsPositive(day, c, a);
    HeldIs(c.holdings, a);
    HeldIs(r.holdings, a);
    hide ShareOf, Px, Held, Sound, Priced, Cost, Size;
    CostMore(day, c.holdings, r.holdings, a);
  }

  lemma CostMore(day: Day, hs: seq<Pos>, hs': seq<Pos>, a: nat)
    requires ShareOf(hs', a) == ShareOf(hs, a) || (ShareOf(hs', a) > ShareOf(hs, a) && Px(day, a) > 0.0)
    ensures Cost(day, hs', a) >= Cost(day, hs, a)
  {
    hide ShareOf, Px;
    if ShareOf(hs', a) != ShareOf(hs, a) {
      MoreCosts(ShareOf(hs, a), ShareOf(hs', a), Px(day, a));
    }
  }

  lemma MoreCosts(x: real, y: real, px: real)
    requires x <= y && px >= 0.0
    ensures x * px * (1.0 + BUY_COST) <= y * px * (1.0 + BUY_COST)
  {
    assert (y - x) * px >= 0.0;
  }

  /**
   * The sizes at the end. No position is larger than a slot unless it already was; each
   * position that comes in gets a slot while the cash lasts, in rank order, then what is
   * left; and if cash remains, every trading position has cost a slot at the day's price.
   */
  lemma StepSizes(p: Params, ord: DefOrder, day: Day, cands: seq<Cand>, b: Book, a: nat)
    requires Ready(p, ord, day, cands, b)
    ensures var r, slot := StepBook(p, ord, day, cands, b), Slot(p, day, cands, b);
      && Size(day, r.holdings, a) <= MaxReal(slot, Size(day, b.holdings, a))
      && (r.cash > 0.0 && Held(r.holdings, a) && Trades(day, a) ==> Cost(day, r.holdings, a) >= slot)
    ensures var r, slot, plan := StepBook(p, ord, day, cands, b), Slot(p, day, cands, b), Decide(p, day, cands, b);
      var cash := b.cash + LeavingValue(p, day, cands, b.holdings) * (1.0 - SELL_COST);
      forall i :: 0 <= i < |plan.buys| && plan.buys[i] == a ==>
        && (Held(r.holdings, a) <==> Money(day, slot, cash, plan.buys, i) > 0.0)
        && Cost(day, r.holdings, a) >= Money(day, slot, cash, plan.buys, i)
  {
    hide *;
    ReadyFacts(p, ord, day, cands, b);
    var plan := Decide(p, day, cands, b);
    DayParts(p, ord, day, cands, b, a);
    ReadyFacts(p, ord, day, cands, b);
    SlotIs(p, ord, day, cands, b);
    AfterSales(p, day, cands, b, a);
    SalesAreLeaving(p, day, cands, b);
    PositionsPositive(day, b, a);
    var s, c, r := SoldBook(day, plan), BoughtBook(p, day, plan), StepBook(p, ord, day, cands, b);
    PositionsPositive(day, s, a);
    AfterSize(day, s, b, a);
    BoughtSize(day, Slot(p, day, cands, b), s, plan.buys, c, a);
    CostGrows(day, Slot(p, day, cands, b), c, r, a);
    SizesAtEnd(day, Slot(p, day, cands, b), s, plan.buys, c, r, Size(day, b.holdings, a), a);
  }

  lemma ReadyFacts(p: Params, ord: DefOrder, day: Day, cands: seq<Cand>, b: Book)
    requires Ready(p, ord, day, cands, b)
    ensures p.Valid() && IsDefOrder(ord) && Sound(b) && Priced(day, b.holdings) && Distinct(CandAssets(cands))
  {
  }

  lemma AfterSize(day: Day, s: Book, b: Book, a: nat)
    requires Held(s.holdings, a) ==> ShareOf(s.holdings, a) == ShareOf(b.holdings, a)
    requires !Held(s.holdings, a) ==> ShareOf(s.holdings, a) == 0.0
    requires Size(day, b.holdings, a) >= 0.0
    ensures Size(day, s.holdings, a) <= Size(day, b.holdings, a)
  {
  }

  lemma SizesAtEnd(day: Day, slot: real, s: Book, buys: seq<nat>, c: Book, r: Book, size: real, a: nat)
    requires Funded(day, slot, s, buys, c, a) && Swept(day, slot, c, r, a) && Size(day, s.holdings, a) <= size && Cost(day, r.holdings, a) >= Cost(day, c.holdings, a)
    requires Size(day, c.holdings, a) <= MaxReal(slot, Size(day, s.holdings, a))
    ensures Size(day, r.holdings, a) <= MaxReal(slot, size)
    ensures r.cash > 0.0 && Held(r.holdings, a) && Trades(day, a) ==> Cost(day, r.holdings, a) >= slot
    ensures forall i :: 0 <= i < |buys| && buys[i] == a ==>
      && (Held(r.holdings, a) <==> Money(day, slot, s.cash, buys, i) > 0.0)
      && Cost(day, r.holdings, a) >= Money(day, slot, s.cash, buys, i)
  {
    hide Size, Cost, Money, Held, ShareOf;
  }
}
