/**
 * The backtest kernel: one object walked through the window day by day, updating
 * its cash and holdings in place. Each phase of the day is proved against the
 * functions of EngineSpec.
 */
module Engine {
  import opened Common
  import opened EngineSpec
  import opened EngineLaws
  import opened EngineStructure
  import opened EngineRun

  lemma {:induction false} WantedPrefix(day: Day, hs: seq<Pos>, cands: seq<Cand>, m: nat, n: nat)
    requires m <= n <= |cands|
    ensures WantedIn(day, hs, cands[..m]) <= WantedIn(day, hs, cands[..n])
    decreases n
  {
    if m < n {
      WantedPrefix(day, hs, cands, m, n - 1);
      assert cands[..n][..n - 1] == cands[..n - 1];
    }
  }

  lemma WantedNext(day: Day, hs: seq<Pos>, cands: seq<Cand>, k: nat)
    requires k < |cands|
    ensures WantedIn(day, hs, cands[..k + 1]) ==
            WantedIn(day, hs, cands[..k]) + if Wanted(day, hs, cands[k]) then [cands[k].a] else []
  {
    assert cands[..k + 1][..k] == cands[..k];
  }

  lemma QuotedOne(day: Day, hs0: seq<Pos>, hs: seq<Pos>, ds: seq<Deficit>, d: Deficit)
    requires Quoted(day, hs0, ds) && d in ds && Assets(hs) == Assets(hs0)
    ensures d.c > 0.0 && Quoted(day, hs, [d])
  {
  }

  lemma FoundAt(hs: seq<Pos>, a: nat)
    requires a in Assets(hs)
    ensures Find(hs, a) >= 0
  {
    var q :| 0 <= q < |hs| && Assets(hs)[q] == a;
    assert hs[q].a == a;
  }

  lemma NoDeficits(day: Day, target: real)
    ensures Deficits(day, target, []) == []
  {
  }

  lemma DeficitsNext(day: Day, target: real, hs: seq<Pos>, i: nat)
    requires i < |hs|
    ensures Deficits(day, target, hs[..i + 1]) == Deficits(day, target, hs[..i]) +
            if Sweepable(day, target, hs[i]) then [Deficit(target - Amount(day, hs[i]), hs[i].a, Px(day, hs[i].a))] else []
  {
    assert hs[..i + 1][..i] == hs[..i];
  }

  ghost function KeptSet(hs: seq<Pos>): set<nat> {
    set p | p in hs && !p.toSell :: p.a
  }

  lemma NoWanted(day: Day, hs: seq<Pos>)
    ensures WantedIn(day, hs, []) == []
  {
  }

  lemma {:induction false} KeptSetSize(hs: seq<Pos>)
    ensures |KeptSet(hs)| <= |hs| - CountIntent(hs)
  {
    if hs != [] {
      var n := |hs| - 1;
      KeptSetSize(hs[..n]);
      assert hs == hs[..n] + [hs[n]];
      assert KeptSet(hs) == KeptSet(hs[..n]) + if hs[n].toSell then {} else {hs[n].a};
    }
  }

  lemma InKeptSet(hs: seq<Pos>, a: nat)
    requires HeldKept(hs, a)
    ensures a in KeptSet(hs)
  {
    assert hs[Find(hs, a)] in hs;
  }

  /** Distinct candidates that are all held and kept are no more than the kept holdings. */
  lemma HeldRun(hs: seq<Pos>, cands: seq<Cand>, lo: nat, hi: nat)
    requires lo <= hi <= |cands| && Distinct(CandAssets(cands))
    requires forall j :: lo <= j < hi ==> HeldKept(hs, cands[j].a)
    ensures hi - lo <= |hs| - CountIntent(hs)
  {
    hide CountIntent;
    KeptSetSize(hs);
    var all := CandAssets(cands);
    var s := all[lo..hi];
    assert forall j :: 0 <= j < |s| ==> s[j] == cands[lo + j].a;
    forall x | x in s
      ensures x in KeptSet(hs)
    {
      var j :| 0 <= j < |s| && s[j] == x;
      InKeptSet(hs, x);
    }
    hide KeptSet, HeldKept, CandAssets;
    DistinctSlice(all, lo, hi);
    DistinctBound(s, KeptSet(hs));
  }

  /** How far the buying scan has looked when it ends, from rank k on with so many slots free. */
  ghost function ScanFrom(day: Day, hs: seq<Pos>, nTop: nat, cands: seq<Cand>, k: nat, slots: int): nat
    requires k <= |cands|
    decreases |cands| - k
  {
    if k == |cands| || slots <= 0 then k
    else if HeldKept(hs, cands[k].a) then ScanFrom(day, hs, nTop, cands, k + 1, slots)
    else if k >= nTop then k + 1
    else ScanFrom(day, hs, nTop, cands, k + 1, if day(cands[k].a).Limited() then slots else slots - 1)
  }

  /** How many candidates the buying scan looks at. */
  ghost function ScanLength(day: Day, holdN: nat, hs: seq<Pos>, cands: seq<Cand>): nat {
    ScanFrom(day, hs, Top(holdN, cands), cands, 0, Slots(holdN, hs))
  }

  lemma {:induction false} ScanFromHeld(day: Day, hs: seq<Pos>, nTop: nat, cands: seq<Cand>, k: nat, slots: int)
    requires k <= |cands| && forall j :: nTop <= j < k ==> HeldKept(hs, cands[j].a)
    ensures var n := ScanFrom(day, hs, nTop, cands, k, slots);
      k <= n <= |cands| && forall j :: nTop <= j < n - 1 ==> HeldKept(hs, cands[j].a)
    decreases |cands| - k
  {
    hide HeldKept;
    if k < |cands| && slots > 0 {
      if HeldKept(hs, cands[k].a) {
        ScanFromHeld(day, hs, nTop, cands, k + 1, slots);
      } else if k < nTop {
        ScanFromHeld(day, hs, nTop, cands, k + 1, if day(cands[k].a).Limited() then slots else slots - 1);
      }
    }
  }

  /** With distinct candidates the buying scan never looks past 2 * hold_n. */
  lemma ScanBound(day: Day, holdN: nat, hs: seq<Pos>, cands: seq<Cand>)
    requires Distinct(CandAssets(cands))
    ensures ScanLength(day, holdN, hs, cands) <= 2 * holdN
  {
    hide CountIntent, CandAssets, HeldKept;
    var nTop, n := Top(holdN, cands), ScanLength(day, holdN, hs, cands);
    ScanFromHeld(day, hs, nTop, cands, 0, Slots(holdN, hs));
    if nTop < n {
      HeldRun(hs, cands, nTop, n - 1);
    }
  }

  lemma KeptNext(sell: Pos -> bool, hs: seq<Pos>, j: nat)
    requires j < |hs|
    ensures Kept(sell, hs[..j + 1]) == Kept(sell, hs[..j]) + if sell(hs[j]) then [] else [hs[j]]
  {
    assert hs[..j + 1][..j] == hs[..j];
  }

  lemma SoldNext(day: Day, sell: Pos -> bool, hs: seq<Pos>, j: nat)
    requires j < |hs|
    ensures SoldValue(day, sell, hs[..j + 1]) ==
            SoldValue(day, sell, hs[..j]) + if sell(hs[j]) then Amount(day, hs[j]) else 0.0
  {
    assert hs[..j + 1][..j] == hs[..j];
  }

  /** The selling loops, seen after `j` of the original holdings were visited. */
  ghost predicate Selling(day: Day, sell: Pos -> bool, b: Book, j: nat, k: nat, now: Book) {
    && j <= |b.holdings|
    && now.holdings == Kept(sell, b.holdings[..j]) + b.holdings[j..]
    && k == |Kept(sell, b.holdings[..j])|
    && now.cash == b.cash + Net(SoldValue(day, sell, b.holdings[..j]))
    && now.turn == b.turn + SoldValue(day, sell, b.holdings[..j])
  }

  lemma SellingKeeps(day: Day, sell: Pos -> bool, b: Book, j: nat, k: nat, now: Book)
    requires Selling(day, sell, b, j, k, now) && k < |now.holdings|
    ensures j < |b.holdings| && now.holdings[k] == b.holdings[j]
    ensures !sell(now.holdings[k]) ==> Selling(day, sell, b, j + 1, k + 1, now)
  {
    KeptNext(sell, b.holdings, j);
    SoldNext(day, sell, b.holdings, j);
    var kept := Kept(sell, b.holdings[..j]);
    assert b.holdings[j..] == [b.holdings[j]] + b.holdings[j + 1..];
  }

  /** What one sale leaves. */
  function AfterSale(day: Day, now: Book, k: nat): Book
    requires k < |now.holdings|
  {
    var value := Amount(day, now.holdings[k]);
    Book(now.cash + Net(value), now.holdings[..k] + now.holdings[k + 1..], now.turn + value)
  }

  lemma SaleIs(day: Day, now: Book, k: nat)
    requires k < |now.holdings|
    ensures var value := Amount(day, now.holdings[k]);
      AfterSale(day, now, k) == Book(now.cash + Net(value), now.holdings[..k] + now.holdings[k + 1..], now.turn + value)
  {
  }

  lemma SellingStart(day: Day, sell: Pos -> bool, b: Book)
    ensures Selling(day, sell, b, 0, 0, b)
  {
  }

  lemma SellingSells(day: Day, sell: Pos -> bool, b: Book, j: nat, k: nat, now: Book)
    requires Selling(day, sell, b, j, k, now) && k < |now.holdings| && sell(now.holdings[k])
    ensures Selling(day, sell, b, j + 1, k, AfterSale(day, now, k))
  {
    SellingKeeps(day, sell, b, j, k, now);
    SoldNext(day, sell, b.holdings, j);
    SellingErases(sell, b.holdings, j, now.holdings);
  }

  lemma SellingErases(sell: Pos -> bool, hs: seq<Pos>, j: nat, now: seq<Pos>)
    requires j < |hs| && sell(hs[j])
    requires now == Kept(sell, hs[..j]) + hs[j..]
    ensures var k := |Kept(sell, hs[..j])|;
      now[..k] + now[k + 1..] == Kept(sell, hs[..j + 1]) + hs[j + 1..] && |Kept(sell, hs[..j + 1])| == k
  {
    KeptNext(sell, hs, j);
    var kept := Kept(sell, hs[..j]);
    assert now[..|kept|] == kept;
    assert now[|kept| + 1..] == hs[j + 1..];
    assert kept + [] == kept;
  }

  lemma SellingDone(day: Day, sell: Pos -> bool, b: Book, j: nat, k: nat, now: Book)
    requires Selling(day, sell, b, j, k, now) && k >= |now.holdings|
    ensures now == Liquidate(day, sell, b)
  {
    assert b.holdings[..j] == b.holdings;
    assert now.holdings == Kept(sell, b.holdings);
  }

  class Engine {
    const params: Params
    const ord: DefOrder
    var cash: real
    var holdings: seq<Pos>
    var pv: real
    var mvEnd: real
    var pvEnd: real
    var turnAmt: real
    var nSellIntent: nat
    var nBuyIntent: nat
    var nSellOk: nat
    var nBuyOk: nat

    ghost predicate Valid() {
      params.Valid() && IsDefOrder(ord)
    }

    function BookOf(): Book
      reads this
    {
      Book(cash, holdings, turnAmt)
    }

    constructor (p: Params, order: DefOrder)
      requires p.Valid() && IsDefOrder(order)
      ensures Valid() && params == p && ord == order && BookOf() == START
    {
      params, ord := p, order;
      new;
      Reset();
    }

    /** Back to the state before the first day of the window. */
    method Reset()
      modifies this
      ensures BookOf() == START
      ensures pv == mvEnd == pvEnd == 0.0
      ensures nSellIntent == nBuyIntent == nSellOk == nBuyOk == 0
    {
      cash := CAPITAL_BASE;
      holdings := [];
      pv, mvEnd, pvEnd, turnAmt := 0.0, 0.0, 0.0, 0.0;
      nSellIntent, nBuyIntent, nSellOk, nBuyOk := 0, 0, 0, 0;
    }

    method FindPos(a: nat) returns (r: int)
      ensures r == Find(holdings, a)
    {
      r := 0;
      while r < |holdings|
        invariant 0 <= r <= |holdings|
        invariant forall j :: 0 <= j < r ==> holdings[j].a != a
      {
        if holdings[r].a == a { return; }
        r := r + 1;
      }
      r := -1;
    }

    method MarketValue(day: Day) returns (mv: real)
      ensures mv == Value(day, holdings)
    {
      mv := 0.0;
      var i := 0;
      while i < |holdings|
        invariant 0 <= i <= |holdings|
        invariant mv == Value(day, holdings[..i])
      {
        assert holdings[..i + 1][..i] == holdings[..i];
        mv := mv + Amount(day, holdings[i]);
        i := i + 1;
      }
      assert holdings[..i] == holdings;
    }

    /** Step (1): holdings of delisted assets are sold at the last close. */
    method SellDelisted(day: Day)
      modifies this`cash, this`holdings, this`turnAmt
      ensures BookOf() == Liquidate(day, DelistSel(day), old(BookOf()))
    {
      hide Selling, AfterSale, Liquidate;
      ghost var b, j := BookOf(), 0;
      SellingStart(day, DelistSel(day), b);
      var k := 0;
      while k < |holdings|
        invariant Selling(day, DelistSel(day), b, j, k, BookOf())
        decreases |holdings| - k
      {
        SellingKeeps(day, DelistSel(day), b, j, k, BookOf());
        var p := holdings[k];
        if !day(p.a).delisted {
          k := k + 1;
        } else {
          SellingSells(day, DelistSel(day), b, j, k, BookOf());
          SaleIs(day, BookOf(), k);
          ghost var after := AfterSale(day, BookOf(), k);
          var value := Amount(day, p);
          turnAmt := turnAmt + value;
          cash := cash + Net(value);
          holdings := holdings[..k] + holdings[k + 1..];
          assert BookOf() == after;
        }
        j := j + 1;
      }
      SellingDone(day, DelistSel(day), b, j, k, BookOf());
    }

    /** Step (5): marked holdings are sold unless suspended or unpriced. */
    method SellMarked(day: Day)
      modifies this`cash, this`holdings, this`turnAmt, this`nSellOk
      ensures BookOf() == Liquidate(day, SellSel(day), old(BookOf()))
      ensures nSellOk == |old(holdings)| - |holdings|
    {
      hide Selling, AfterSale, Liquidate;
      nSellOk := 0;
      ghost var b, j := BookOf(), 0;
      SellingStart(day, SellSel(day), b);
      var k := 0;
      while k < |holdings|
        invariant Selling(day, SellSel(day), b, j, k, BookOf())
        invariant nSellOk == |b.holdings| - |holdings|
        decreases |holdings| - k
      {
        SellingKeeps(day, SellSel(day), b, j, k, BookOf());
        var p := holdings[k];
        if !p.toSell {
          k := k + 1;
        } else if day(p.a).susp || day(p.a).close.None? {
          k := k + 1;
        } else {
          SellingSells(day, SellSel(day), b, j, k, BookOf());
          SaleIs(day, BookOf(), k);
          ghost var after := AfterSale(day, BookOf(), k);
          var value := Amount(day, p);
          turnAmt := turnAmt + value;
          cash := cash + Net(value);
          holdings := holdings[..k] + holdings[k + 1..];
          assert BookOf() == after;
          nSellOk := nSellOk + 1;
        }
        j := j + 1;
      }
      SellingDone(day, SellSel(day), b, j, k, BookOf());
    }

    method RankedWithin(cands: seq<Cand>, a: nat, n: nat) returns (found: bool)
      requires n <= |cands|
      ensures found == InPrefix(cands, a, n)
    {
      var k := 0;
      while k < n
        invariant 0 <= k <= n
        invariant forall j :: 0 <= j < k ==> cands[j].a != a
      {
        if cands[k].a == a { return true; }
        k := k + 1;
      }
      return false;
    }

    /** Step (4), first half: which holdings to sell. */
    method MarkHoldings(day: Day, cands: seq<Cand>)
      requires Valid()
      modifies this`holdings, this`nSellIntent
      ensures holdings == MarkAll(day, cands, params.NExit(), old(holdings))
      ensures nSellIntent == CountIntent(holdings)
    {
      ghost var hs := holdings;
      var nTopExit := Top(params.NExit(), cands);
      nSellIntent := 0;
      var i := 0;
      while i < |holdings|
        invariant 0 <= i <= |holdings| == |hs|
        invariant forall j :: 0 <= j < i ==> holdings[j] == Marked(day, cands, params.NExit(), hs[j])
        invariant forall j :: i <= j < |hs| ==> holdings[j] == hs[j]
        invariant nSellIntent == CountIntent(holdings[..i])
      {
        var p := holdings[i];
        var ranked := RankedWithin(cands, p.a, nTopExit);
        ghost var before := holdings;
        holdings := holdings[i := p.(toSell := !ranked && !day(p.a).Limited())];
        assert holdings[..i] == before[..i];
        assert holdings[..i + 1][..i] == holdings[..i];
        if holdings[i].toSell {
          nSellIntent := nSellIntent + 1;
        }
        i := i + 1;
      }
      assert holdings[..i] == holdings;
      assert holdings == MarkAll(day, cands, params.NExit(), hs);
    }

    /**
     * Step (4), second half: fill the free slots in rank order. `looked` counts the
     * candidates looked at.
     */
    method ScanBuys(day: Day, cands: seq<Cand>) returns (buys: seq<nat>, ghost looked: nat)
      requires Valid() && nSellIntent == CountIntent(holdings)
      ensures buys == BuyList(day, params.holdN, holdings, cands)
      ensures looked == ScanLength(day, params.holdN, holdings, cands)
    {
      hide WantedIn, CountIntent, CandAssets;
      var nTop := Top(params.holdN, cands);
      var slots := params.holdN - (|holdings| - nSellIntent);
      NoWanted(day, holdings);
      ghost var slots0 := slots;
      buys, looked := [], 0;
      if slots <= 0 { return; }
      var k := 0;
      while k < |cands| && slots > 0
        invariant 0 <= k <= |cands| && slots >= 0 && |buys| + slots == slots0
        invariant buys == WantedIn(day, holdings, cands[..if k <= nTop then k else nTop])
        invariant looked == k
        invariant ScanLength(day, params.holdN, holdings, cands) == ScanFrom(day, holdings, nTop, cands, k, slots)
      {
        looked := k + 1;
        WantedNext(day, holdings, cands, k);
        var a := cands[k].a;
        var r := FindPos(a);
        if r >= 0 && !holdings[r].toSell {
          k := k + 1;
        } else if k >= nTop {
          break;
        } else if day(a).Limited() {
          k := k + 1;
        } else {
          buys := buys + [a];
          slots := slots - 1;
          k := k + 1;
        }
      }
      WantedPrefix(day, holdings, cands, if k <= nTop then k else nTop, nTop);
    }

    /** Step (6), first part: each new buy costs at most the target. */
    method BuyNew(day: Day, buys: seq<nat>, target: real)
      modifies this`cash, this`holdings, this`turnAmt, this`nBuyOk
      ensures BookOf() == BuyAll(day, target, old(BookOf()), buys)
      ensures nBuyOk == |holdings| - |old(holdings)|
    {
      nBuyOk := 0;
      var i := 0;
      while i < |buys| && cash > 0.0
        invariant 0 <= i <= |buys|
        invariant BuyAll(day, target, old(BookOf()), buys) == BuyAll(day, target, BookOf(), buys[i..])
        invariant nBuyOk == |holdings| - |old(holdings)|
      {
        var a := buys[i];
        assert buys[i..][1..] == buys[i + 1..];
        ghost var next := BuyOne(day, target, BookOf(), a);
        if day(a).Buyable() {
          var money := MinReal(target, cash);
          var sh := SharesFor(money, Px(day, a));
          if sh > 0.0 {
            cash := cash - money;
            turnAmt := turnAmt + money;
            holdings := holdings + [Pos(a, sh, false)];
            nBuyOk := nBuyOk + 1;
          }
        }
        assert BookOf() == next;
        i := i + 1;
      }
    }

    method CollectDeficits(day: Day, target: real) returns (ds: seq<Deficit>)
      ensures ds == Deficits(day, target, holdings)
    {
      hide Deficits;
      ds := [];
      var i := 0;
      NoDeficits(day, target);
      while i < |holdings|
        invariant 0 <= i <= |holdings|
        invariant ds == Deficits(day, target, holdings[..i])
      {
        DeficitsNext(day, target, holdings, i);
        var p := holdings[i];
        if day(p.a).Buyable() && !day(p.a).susp && !day(p.a).Limited() {
          var def := target - Amount(day, p);
          if def > 0.0 {
            ds := ds + [Deficit(def, p.a, Px(day, p.a))];
          }
        }
        i := i + 1;
      }
      assert holdings[..i] == holdings;
    }

    /** Step (6), second part: what cash is left tops up the holdings below target. */
    method SweepCash(day: Day, target: real)
      requires Valid()
      modifies this`cash, this`holdings, this`turnAmt
      ensures BookOf() == Sweep(day, ord, target, old(BookOf()))
    {
      if cash > 0.0 && holdings != [] {
        var ds := CollectDeficits(day, target);
        DeficitsPriced(day, target, holdings);
        DeficitsQuoted(day, target, holdings);
        OrderKeeps(ord, ds);
        PayDeficits(day, ord(ds));
      }
    }

    method PayDeficits(day: Day, ds: seq<Deficit>)
      requires forall i :: 0 <= i < |ds| ==> ds[i].c > 0.0
      requires Quoted(day, holdings, ds)
      modifies this`cash, this`holdings, this`turnAmt
      ensures BookOf() == TopUp(old(BookOf()), ds)
    {
      hide TopUpOne, Quoted;
      var i := 0;
      while i < |ds| && cash > 0.0
        invariant 0 <= i <= |ds|
        invariant TopUp(old(BookOf()), ds) == TopUp(BookOf(), ds[i..])
        invariant Assets(holdings) == Assets(old(holdings))
      {
        assert ds[i..][1..] == ds[i + 1..];
        QuotedOne(day, old(holdings), holdings, ds, ds[i]);
        PayOne(day, ds[i]);
        i := i + 1;
      }
    }

    method PayOne(day: Day, d: Deficit)
      requires d.c > 0.0 && Quoted(day, holdings, [d])
      modifies this`cash, this`holdings, this`turnAmt
      ensures BookOf() == TopUpOne(old(BookOf()), d) && Assets(holdings) == Assets(old(holdings))
    {
      TopUpOneSpent(day, BookOf(), d);
      hide Spent;
      assert d in [d];
      var money := MinReal(d.def, cash);
      var add := SharesFor(money, d.c);
      if add > 0.0 {
        cash := cash - money;
        turnAmt := turnAmt + money;
        var r := FindPos(d.a);
        FoundAt(holdings, d.a);
        holdings := holdings[r := holdings[r].(shares := holdings[r].shares + add)];
      }
    }

    /** What the kernel's own asserts demand on entry to a day. */
    ghost predicate Ready(day: Day, cands: seq<Cand>)
      reads this
    {
      && Valid() && Sound(BookOf()) && Priced(day, holdings)
      && Worth(day, BookOf()) > 0.0 && Distinct(CandAssets(cands))
    }

    /** Steps (1) to (4): forced sales, valuation, intentions. */
    method DecideDay(day: Day, cands: seq<Cand>) returns (buys: seq<nat>, ghost looked: nat)
      requires Valid()
      modifies this`cash, this`holdings, this`turnAmt, this`pv, this`nSellIntent, this`nBuyIntent
      ensures var plan := Decide(params, day, cands, old(BookOf()));
        && BookOf() == plan.start.(holdings := plan.marked)
        && buys == plan.buys
        && pv == Worth(day, plan.start)
        && nSellIntent == CountIntent(plan.marked)
        && nBuyIntent == |plan.buys|
        && looked == ScanLength(day, params.holdN, plan.marked, cands)
    {
      hide Liquidate, MarkAll, BuyList, Value;
      turnAmt := 0.0;
      SellDelisted(day);
      var mv := MarketValue(day);
      pv := cash + mv;
      MarkHoldings(day, cands);
      buys, looked := ScanBuys(day, cands);
      nBuyIntent := |buys|;
    }

    /** Steps (5) to (7): sales, buys, the sweep, the closing value. */
    method ExecuteDay(day: Day, ghost plan: DayPlan, buys: seq<nat>)
      requires Valid() && BookOf() == plan.start.(holdings := plan.marked) && buys == plan.buys
      modifies this`cash, this`holdings, this`turnAmt, this`nSellOk, this`nBuyOk, this`mvEnd, this`pvEnd
      ensures BookOf() == Execute(params, ord, day, plan)
      ensures nSellOk == |plan.marked| - |SoldBook(day, plan).holdings|
      ensures nBuyOk == |BoughtBook(params, day, plan).holdings| - |SoldBook(day, plan).holdings|
      ensures mvEnd == Value(day, holdings) && pvEnd == Worth(day, BookOf())
    {
      hide Liquidate, BuyAll, Sweep, Value;
      SellMarked(day);
      var mvKept := MarketValue(day);
      var target := (cash + mvKept) / params.holdN as real;
      BuyNew(day, buys, target);
      SweepCash(day, target);
      mvEnd := MarketValue(day);
      pvEnd := cash + mvEnd;
    }

    /** One day of the window. */
    method Step(day: Day, cands: seq<Cand>) returns (ghost looked: nat)
      requires Ready(day, cands)
      modifies this
      ensures BookOf() == StepBook(params, ord, day, cands, old(BookOf()))
      ensures var plan := Decide(params, day, cands, old(BookOf()));
        && pv == Worth(day, plan.start) && pv > 0.0
        && nSellIntent == CountIntent(plan.marked)
        && nBuyIntent == |plan.buys|
        && nSellOk == |plan.marked| - |SoldBook(day, plan).holdings|
        && nBuyOk == |BoughtBook(params, day, plan).holdings| - |SoldBook(day, plan).holdings|
        && DayKeeps(params, day, plan, BookOf())
      ensures mvEnd == Value(day, holdings) && pvEnd == Worth(day, BookOf()) && pvEnd > 0.0
      ensures looked == ScanLength(day, params.holdN, Decide(params, day, cands, old(BookOf())).marked, cands) <= 2 * params.holdN
    {
      hide ScanLength, Decide, Execute, SoldBook, BoughtBook, Worth, DayKeeps, CountIntent, Value, Priced, CandAssets;
      StepPositive(params, ord, day, cands, BookOf());
      StepKeeps(params, ord, day, cands, BookOf());
      ghost var plan := Decide(params, day, cands, BookOf());
      var buys;
      buys, looked := DecideDay(day, cands);
      ScanBound(day, params.holdN, plan.marked, cands);
      ExecuteDay(day, plan, buys);
    }
  }
}
