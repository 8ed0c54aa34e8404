/**
 * The kernel over a whole window: the invariants hold on every day of every run.
 */
module EngineRun {
  import opened Common
  import opened EngineSpec
  import opened EngineLaws
  import opened EngineStructure

  /** What one day of a run is given. */
  datatype Input = Input(day: Day, cands: seq<Cand>)

  const START := Book(CAPITAL_BASE, [], 0.0)

  function RunBook(p: Params, ord: DefOrder, ins: seq<Input>): Book
    requires p.Valid() && IsDefOrder(ord)
  {
    if ins == [] then START
    else
      var last := ins[|ins| - 1];
      StepBook(p, ord, last.day, last.cands, RunBook(p, ord, ins[..|ins| - 1]))
  }

  /** The net asset value at the end of each day. */
  function NavSeries(p: Params, ord: DefOrder, ins: seq<Input>): (r: seq<real>)
    requires p.Valid() && IsDefOrder(ord)
    ensures |r| == |ins|
  {
    if ins == [] then []
    else NavSeries(p, ord, ins[..|ins| - 1]) + [Worth(ins[|ins| - 1].day, RunBook(p, ord, ins))]
  }

  /** A forward-filled window: a price once known is never lost and stays positive. */
  ghost predicate PricesPersist(ins: seq<Input>) {
    forall i, j, a :: 0 <= i < j < |ins| && ins[i].day(a).Buyable() ==> ins[j].day(a).Buyable()
  }

  ghost predicate CandsDistinct(ins: seq<Input>) {
    forall i :: 0 <= i < |ins| ==> Distinct(CandAssets(ins[i].cands))
  }

  /** From the entry of one day to the entry of the next. */
  lemma NextEntry(p: Params, ord: DefOrder, last: Input, next: Day, b: Book)
    requires p.Valid() && IsDefOrder(ord) && Sound(b) && Priced(last.day, b.holdings)
    requires Distinct(CandAssets(last.cands)) && Worth(last.day, b) > 0.0
    requires forall a :: last.day(a).Buyable() ==> next(a).Buyable()
    ensures var r := StepBook(p, ord, last.day, last.cands, b);
      Sound(r) && Priced(next, r.holdings) && Worth(next, r) > 0.0
  {
    var r := StepBook(p, ord, last.day, last.cands, b);
    StepKeeps(p, ord, last.day, last.cands, b);
    StepPositive(p, ord, last.day, last.cands, b);
    RepricePositive(last.day, next, r);
  }

  lemma RepricePositive(day: Day, next: Day, b: Book)
    requires Sound(b) && Priced(day, b.holdings) && Worth(day, b) > 0.0
    requires forall a :: day(a).Buyable() ==> next(a).Buyable()
    ensures Priced(next, b.holdings) && Worth(next, b) > 0.0
  {
    ValuePositive(next, b.holdings);
  }

  /** The book a day of a run starts from. */
  function BookBefore(p: Params, ord: DefOrder, ins: seq<Input>): Book
    requires p.Valid() && IsDefOrder(ord) && ins != []
  {
    RunBook(p, ord, ins[..|ins| - 1])
  }

  function PlanOf(p: Params, ord: DefOrder, ins: seq<Input>): DayPlan
    requires p.Valid() && IsDefOrder(ord) && ins != []
  {
    Decide(p, ins[|ins| - 1].day, ins[|ins| - 1].cands, BookBefore(p, ord, ins))
  }

  lemma PrefixPersists(ins: seq<Input>)
    requires PricesPersist(ins) && CandsDistinct(ins) && |ins| > 1
    ensures var n := |ins| - 1;
      && PricesPersist(ins[..n]) && CandsDistinct(ins[..n]) && Distinct(CandAssets(ins[n - 1].cands))
      && forall a :: ins[n - 1].day(a).Buyable() ==> ins[n].day(a).Buyable()
  {
  }

  /** On every day of every run the entry book is sound, priced and worth something. */
  lemma {:induction false} RunEntry(p: Params, ord: DefOrder, ins: seq<Input>)
    requires p.Valid() && IsDefOrder(ord) && ins != []
    requires PricesPersist(ins) && CandsDistinct(ins)
    ensures var day, b := ins[|ins| - 1].day, BookBefore(p, ord, ins);
      Sound(b) && Priced(day, b.holdings) && Worth(day, b) > 0.0
    decreases |ins|
  {
    var n := |ins| - 1;
    var init := ins[..n];
    if n > 0 {
      PrefixPersists(ins);
      hide StepBook, Worth, Priced, Sound, PricesPersist, CandsDistinct, CandAssets, Distinct;
      RunEntry(p, ord, init);
      NextEntry(p, ord, ins[n - 1], ins[n].day, BookBefore(p, ord, init));
    }
  }

  /**
   * Over every run the kernel's own checks never fail: each day ends with cash not
   * negative, positive shares, no asset held twice, every holding priced, and the
   * decision value and the net asset value positive.
   */
  lemma RunKeeps(p: Params, ord: DefOrder, ins: seq<Input>)
    requires p.Valid() && IsDefOrder(ord) && ins != []
    requires PricesPersist(ins) && CandsDistinct(ins)
    ensures DayKeeps(p, ins[|ins| - 1].day, PlanOf(p, ord, ins), RunBook(p, ord, ins))
    ensures Worth(ins[|ins| - 1].day, PlanOf(p, ord, ins).start) > 0.0
    ensures NavSeries(p, ord, ins)[|ins| - 1] > 0.0
  {
    var last, b := ins[|ins| - 1], BookBefore(p, ord, ins);
    RunEntry(p, ord, ins);
    assert Distinct(CandAssets(last.cands));
    StepKeeps(p, ord, last.day, last.cands, b);
    StepPositive(p, ord, last.day, last.cands, b);
  }

  /** No intended sale is blocked on any day. */
  ghost predicate NeverBlocked(p: Params, ord: DefOrder, ins: seq<Input>)
    requires p.Valid() && IsDefOrder(ord)
  {
    forall n :: 0 < n <= |ins| ==> Blocked(ins[n - 1].day, PlanOf(p, ord, ins[..n])) == 0
  }

  /** On a run in which no intended sale is blocked, never more than hold_n assets are held. */
  lemma {:induction false} HoldingsBounded(p: Params, ord: DefOrder, ins: seq<Input>)
    requires p.Valid() && IsDefOrder(ord)
    requires PricesPersist(ins) && CandsDistinct(ins) && NeverBlocked(p, ord, ins)
    ensures |RunBook(p, ord, ins).holdings| <= p.holdN
    decreases |ins|
  {
    if ins != [] {
      var n := |ins| - 1;
      var init := ins[..n];
      assert forall m :: 0 < m <= n ==> init[..m] == ins[..m];
      HoldingsBounded(p, ord, init);
      RunEntry(p, ord, ins);
      assert ins[..n + 1] == ins;
      assert Blocked(ins[n].day, PlanOf(p, ord, ins[..n + 1])) == 0;
      UnblockedDay(p, ord, ins[n].day, ins[n].cands, RunBook(p, ord, init));
    }
  }

  lemma UnblockedDay(p: Params, ord: DefOrder, day: Day, cands: seq<Cand>, b: Book)
    requires p.Valid() && IsDefOrder(ord) && Sound(b) && Priced(day, b.holdings)
    requires Distinct(CandAssets(cands)) && |b.holdings| <= p.holdN
    requires Blocked(day, Decide(p, day, cands, b)) == 0
    ensures |StepBook(p, ord, day, cands, b).holdings| <= p.holdN
  {
    PlanSound(p, day, cands, b);
    StepKeeps(p, ord, day, cands, b);
  }

  /** The candidate lists of a run, each cut to a prefix. */
  function Cut(ins: seq<Input>, cut: nat): seq<Input> {
    seq(|ins|, i requires 0 <= i < |ins| => Input(ins[i].day, ins[i].cands[..Top(cut, ins[i].cands)]))
  }

  /** Cutting every list at or beyond the exit rank leaves the whole run as it was. */
  lemma {:induction false} CutRun(p: Params, ord: DefOrder, ins: seq<Input>, cut: nat)
    requires p.Valid() && IsDefOrder(ord) && cut >= p.NExit()
    ensures RunBook(p, ord, Cut(ins, cut)) == RunBook(p, ord, ins)
    ensures NavSeries(p, ord, Cut(ins, cut)) == NavSeries(p, ord, ins)
    decreases |ins|
  {
    hide StepBook, Worth, Decide;
    if ins != [] {
      var n := |ins| - 1;
      CutRun(p, ord, ins[..n], cut);
      assert Cut(ins, cut)[..n] == Cut(ins[..n], cut);
      ExitCoversEntry(p);
      PrefixSuffices(p, ord, ins[n].day, ins[n].cands, cut, RunBook(p, ord, ins[..n]));
    }
  }
}
