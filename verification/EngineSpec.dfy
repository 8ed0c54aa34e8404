/**
 * The backtest kernel as functions on values: what one trading day does to the
 * cash and the holdings. The class in Engine.dfy is proved against these.
 */
module EngineSpec {
  import opened Common

  const CAPITAL_BASE := 1000000.0
  const BUY_COST := 0.0003
  const SELL_COST := 0.0013

  /** One asset on one day. `close` is the last close; None is NaN. */
  datatype Quote = Quote(close: Option<real>, susp: bool, limUp: bool, limDn: bool, delisted: bool) {
    predicate Limited() { limUp || limDn }

    predicate Buyable() { close.Some? && close.value > 0.0 }
  }

  /** The market row of one day, by asset. */
  type Day = nat -> Quote

  datatype Pos = Pos(a: nat, shares: real, toSell: bool)

  /** A ranked candidate. */
  datatype Cand = Cand(score: real, a: nat)

  datatype Book = Book(cash: real, holdings: seq<Pos>, turn: real)

  datatype Deficit = Deficit(def: real, a: nat, c: real)

  datatype Params = Params(holdN: nat, exitRatio: real) {
    predicate Valid() { holdN > 0 && exitRatio >= 1.0 }

    /** How many ranks a holding may keep its place in. */
    function NExit(): nat
      requires Valid()
    {
      (holdN as real * exitRatio).Floor
    }
  }

  lemma ExitCoversEntry(p: Params)
    requires p.Valid()
    ensures p.NExit() >= p.holdN
  {
    var h := p.holdN as real;
    assert h * p.exitRatio >= h * 1.0;
  }

  /** The library sort of the deficits: only its specification is known. */
  type DefOrder = seq<Deficit> -> seq<Deficit>

  ghost predicate Descending(ds: seq<Deficit>) {
    forall i, j :: 0 <= i < j < |ds| ==> ds[i].def >= ds[j].def
  }

  ghost predicate IsDefOrder(ord: DefOrder) {
    forall ds :: Descending(ord(ds)) && multiset(ord(ds)) == multiset(ds)
  }

  // ---- valuation ----

  function Px(day: Day, a: nat): real {
    match day(a).close
    case Some(c) => c
    case None => 0.0
  }

  /** What one holding is worth today. */
  function Amount(day: Day, p: Pos): real {
    p.shares * Px(day, p.a)
  }

  /** What a sale brings in after its cost. */
  function Net(sold: real): real {
    sold * (1.0 - SELL_COST)
  }

  function Value(day: Day, hs: seq<Pos>): real {
    if hs == [] then 0.0
    else Value(day, hs[..|hs| - 1]) + Amount(day, hs[|hs| - 1])
  }

  // ---- selling ----

  function Kept(sell: Pos -> bool, hs: seq<Pos>): seq<Pos> {
    if hs == [] then []
    else Kept(sell, hs[..|hs| - 1]) + if sell(hs[|hs| - 1]) then [] else [hs[|hs| - 1]]
  }

  function SoldValue(day: Day, sell: Pos -> bool, hs: seq<Pos>): real {
    if hs == [] then 0.0
    else
      var p := hs[|hs| - 1];
      SoldValue(day, sell, hs[..|hs| - 1]) + if sell(p) then Amount(day, p) else 0.0
  }

  /** Everything `sell` picks leaves at today's price; each sale pays the selling cost. */
  function Liquidate(day: Day, sell: Pos -> bool, b: Book): Book {
    var sold := SoldValue(day, sell, b.holdings);
    Book(b.cash + Net(sold), Kept(sell, b.holdings), b.turn + sold)
  }

  function DelistSel(day: Day): Pos -> bool {
    (p: Pos) => day(p.a).delisted
  }

  function SellSel(day: Day): Pos -> bool {
    (p: Pos) => p.toSell && !day(p.a).susp && day(p.a).close.Some?
  }

  // ---- decisions ----

  predicate InPrefix(cands: seq<Cand>, a: nat, n: nat)
    requires n <= |cands|
  {
    exists k :: 0 <= k < n && cands[k].a == a
  }

  function Top(n: nat, cands: seq<Cand>): (r: nat)
    ensures r <= |cands|
  {
    if n <= |cands| then n else |cands|
  }

  function Marked(day: Day, cands: seq<Cand>, nExit: nat, p: Pos): Pos {
    p.(toSell := !InPrefix(cands, p.a, Top(nExit, cands)) && !day(p.a).Limited())
  }

  function MarkAll(day: Day, cands: seq<Cand>, nExit: nat, hs: seq<Pos>): (r: seq<Pos>)
  {
    seq(|hs|, i requires 0 <= i < |hs| => Marked(day, cands, nExit, hs[i]))
  }

  function CountIntent(hs: seq<Pos>): (r: nat)
    ensures r <= |hs|
  {
    if hs == [] then 0
    else CountIntent(hs[..|hs| - 1]) + if hs[|hs| - 1].toSell then 1 else 0
  }

  /** The position of asset `a`, as `find` returns it: the first one, or -1. */
  function Find(hs: seq<Pos>, a: nat): (r: int)
    ensures -1 <= r < |hs|
    ensures r >= 0 ==> hs[r].a == a && forall j :: 0 <= j < r ==> hs[j].a != a
    ensures r < 0 ==> forall j :: 0 <= j < |hs| ==> hs[j].a != a
  {
    if hs == [] then -1
    else if hs[0].a == a then 0
    else
      var r := Find(hs[1..], a);
      if r < 0 then -1 else r + 1
  }

  predicate HeldKept(hs: seq<Pos>, a: nat) {
    var r := Find(hs, a);
    r >= 0 && !hs[r].toSell
  }

  /** What the buying scan accepts at one rank. */
  predicate Wanted(day: Day, hs: seq<Pos>, c: Cand) {
    !HeldKept(hs, c.a) && !day(c.a).Limited()
  }

  function WantedIn(day: Day, hs: seq<Pos>, cands: seq<Cand>): seq<nat> {
    if cands == [] then []
    else
      var c := cands[|cands| - 1];
      WantedIn(day, hs, cands[..|cands| - 1]) + if Wanted(day, hs, c) then [c.a] else []
  }

  function Slots(holdN: nat, hs: seq<Pos>): int {
    holdN - (|hs| - CountIntent(hs))
  }

  /** The buys: the first wanted assets among the top ranks, one per free slot. */
  function BuyList(day: Day, holdN: nat, hs: seq<Pos>, cands: seq<Cand>): seq<nat> {
    var all := WantedIn(day, hs, cands[..Top(holdN, cands)]);
    var slots := Slots(holdN, hs);
    if slots <= 0 then [] else if slots < |all| then all[..slots] else all
  }

  // ---- buying ----

  /** Money spent for shares at price c, the buying cost included. */
  function SharesFor(money: real, c: real): real
    requires c > 0.0
  {
    money / (1.0 + BUY_COST) / c
  }

  function BuyOne(day: Day, target: real, b: Book, a: nat): Book {
    if !day(a).Buyable() then b
    else
      var money := MinReal(target, b.cash);
      var sh := SharesFor(money, Px(day, a));
      if sh <= 0.0 then b
      else Book(b.cash - money, b.holdings + [Pos(a, sh, false)], b.turn + money)
  }

  function BuyAll(day: Day, target: real, b: Book, buys: seq<nat>): Book
    decreases |buys|
  {
    if buys == [] || b.cash <= 0.0 then b
    else BuyAll(day, target, BuyOne(day, target, b, buys[0]), buys[1..])
  }

  // ---- the cash sweep ----

  predicate Sweepable(day: Day, target: real, p: Pos) {
    && day(p.a).Buyable()
    && !day(p.a).susp && !day(p.a).Limited()
    && target - Amount(day, p) > 0.0
  }

  function Deficits(day: Day, target: real, hs: seq<Pos>): seq<Deficit> {
    if hs == [] then []
    else
      var p := hs[|hs| - 1];
      Deficits(day, target, hs[..|hs| - 1]) +
      if Sweepable(day, target, p) then [Deficit(target - Amount(day, p), p.a, Px(day, p.a))] else []
  }

  function AddShares(hs: seq<Pos>, a: nat, add: real): seq<Pos> {
    var r := Find(hs, a);
    if r < 0 then hs else hs[r := hs[r].(shares := hs[r].shares + add)]
  }

  function TopUpOne(b: Book, d: Deficit): Book
    requires d.c > 0.0
  {
    var money := MinReal(d.def, b.cash);
    var add := SharesFor(money, d.c);
    if add <= 0.0 then b
    else Book(b.cash - money, AddShares(b.holdings, d.a, add), b.turn + money)
  }

  function TopUp(b: Book, ds: seq<Deficit>): Book
    requires forall i :: 0 <= i < |ds| ==> ds[i].c > 0.0
    decreases |ds|
  {
    if ds == [] || b.cash <= 0.0 then b
    else TopUp(TopUpOne(b, ds[0]), ds[1..])
  }

  lemma {:induction false} DeficitsPriced(day: Day, target: real, hs: seq<Pos>)
    ensures forall d :: d in Deficits(day, target, hs) ==> d.c > 0.0 && d.def > 0.0
  {
    if hs != [] {
      DeficitsPriced(day, target, hs[..|hs| - 1]);
    }
  }

  lemma OrderKeeps(ord: DefOrder, ds: seq<Deficit>)
    requires IsDefOrder(ord)
    ensures forall d :: d in ord(ds) <==> d in ds
    ensures |ord(ds)| == |ds|
  {
    var m := multiset(ord(ds));
    assert forall d :: d in ord(ds) <==> d in m;
    assert forall d :: d in ds <==> d in multiset(ds);
    assert |m| == |ord(ds)| && |multiset(ds)| == |ds|;
  }

  function Sweep(day: Day, ord: DefOrder, target: real, b: Book): Book
    requires IsDefOrder(ord)
  {
    if b.cash <= 0.0 || b.holdings == [] then b
    else
      var ds := Deficits(day, target, b.holdings);
      DeficitsPriced(day, target, b.holdings);
      OrderKeeps(ord, ds);
      TopUp(b, ord(ds))
  }

  // ---- one day ----

  /** The day split at its decision points. */
  datatype DayPlan = DayPlan(start: Book, marked: seq<Pos>, buys: seq<nat>)

  function Decide(p: Params, day: Day, cands: seq<Cand>, b: Book): DayPlan
    requires p.Valid()
  {
    var start := Liquidate(day, DelistSel(day), b.(turn := 0.0));
    var marked := MarkAll(day, cands, p.NExit(), start.holdings);
    DayPlan(start, marked, BuyList(day, p.holdN, marked, cands))
  }

  function SoldBook(day: Day, plan: DayPlan): Book {
    Liquidate(day, SellSel(day), plan.start.(holdings := plan.marked))
  }

  function Target(p: Params, day: Day, b: Book): real
    requires p.Valid()
  {
    (b.cash + Value(day, b.holdings)) / p.holdN as real
  }

  function BoughtBook(p: Params, day: Day, plan: DayPlan): Book
    requires p.Valid()
  {
    var b := SoldBook(day, plan);
    BuyAll(day, Target(p, day, b), b, plan.buys)
  }

  function Execute(p: Params, ord: DefOrder, day: Day, plan: DayPlan): Book
    requires p.Valid() && IsDefOrder(ord)
  {
    Sweep(day, ord, Target(p, day, SoldBook(day, plan)), BoughtBook(p, day, plan))
  }

  function StepBook(p: Params, ord: DefOrder, day: Day, cands: seq<Cand>, b: Book): Book
    requires p.Valid() && IsDefOrder(ord)
  {
    Execute(p, ord, day, Decide(p, day, cands, b))
  }
}
