/**
 * The two paths to a net asset value series: the report reads the full rank
 * column every day, the miner picks the head of the pool for a whole batch of
 * weightings. Both are proved against the same series.
 */
module Mining {
  import opened Common
  import opened CrossSection
  import opened CrossSectionLaws
  import opened EngineSpec
  import opened EngineLaws
  import opened EngineStructure
  import opened EngineRun
  import opened Engine
  import opened Ranking
  import opened TopSelect
  import opened Columns

  /** One day of the window: the market and the pool with its factors. */
  datatype Session = Session(day: Day, panel: Panel)

  ghost predicate WindowValid(rnd: Rounding, ws: seq<Weight>, win: seq<Session>) {
    && (forall i :: 0 <= i < |win| ==> win[i].panel.Valid() && PlanValid(rnd, win[i].panel, ws))
    && (forall i, j, a :: 0 <= i < j < |win| && win[i].day(a).Buyable() ==> win[j].day(a).Buyable())
  }

  /** What the report hands the kernel. */
  function ReportInputs(rnd: Rounding, ws: seq<Weight>, win: seq<Session>): (r: seq<Input>)
    requires WindowValid(rnd, ws, win)
    ensures |r| == |win|
  {
    seq(|win|, i requires 0 <= i < |win| => Input(win[i].day, DayRanking(rnd, win[i].panel, ws)))
  }

  /** The series both paths are measured against. */
  function Nav(p: Params, ord: DefOrder, rnd: Rounding, ws: seq<Weight>, win: seq<Session>): (r: seq<real>)
    requires p.Valid() && IsDefOrder(ord) && WindowValid(rnd, ws, win)
    ensures |r| == |win|
  {
    NavSeries(p, ord, ReportInputs(rnd, ws, win))
  }

  lemma InputsValid(rnd: Rounding, ws: seq<Weight>, win: seq<Session>)
    requires WindowValid(rnd, ws, win)
    ensures CandsDistinct(ReportInputs(rnd, ws, win)) && PricesPersist(ReportInputs(rnd, ws, win))
  {
    hide DayRanking;
    forall i | 0 <= i < |win|
      ensures Distinct(CandAssets(ReportInputs(rnd, ws, win)[i].cands))
    {
      DayRankingDistinct(rnd, win[i].panel, ws);
    }
  }

  /** The book on entry to day i of the reference run, and what holds of it. */
  ghost predicate OnTrack(p: Params, ord: DefOrder, rnd: Rounding, ws: seq<Weight>, win: seq<Session>, i: nat, b: Book, navs: seq<real>)
    requires p.Valid() && IsDefOrder(ord) && WindowValid(rnd, ws, win)
  {
    && i <= |win|
    && b == RunBook(p, ord, ReportInputs(rnd, ws, win)[..i])
    && navs == Nav(p, ord, rnd, ws, win)[..i]
  }

  lemma {:induction false} NavPrefix(p: Params, ord: DefOrder, ins: seq<Input>, i: nat)
    requires p.Valid() && IsDefOrder(ord) && i <= |ins|
    ensures NavSeries(p, ord, ins)[..i] == NavSeries(p, ord, ins[..i])
    decreases |ins|
  {
    hide StepBook, RunBook, Worth;
    if i < |ins| {
      var n := |ins| - 1;
      NavPrefix(p, ord, ins[..n], i);
      assert ins[..n][..i] == ins[..i];
    } else {
      assert ins[..i] == ins;
    }
  }

  /** On track at the start of a day, the kernel's demands are met by any distinct candidates. */
  lemma TrackReady(p: Params, ord: DefOrder, rnd: Rounding, ws: seq<Weight>, win: seq<Session>, i: nat)
    requires p.Valid() && IsDefOrder(ord) && WindowValid(rnd, ws, win) && i < |win|
    ensures var b := RunBook(p, ord, ReportInputs(rnd, ws, win)[..i]);
      Sound(b) && Priced(win[i].day, b.holdings) && Worth(win[i].day, b) > 0.0
  {
    hide StepBook, DayRanking, Worth, Priced, Sound;
    var ins := ReportInputs(rnd, ws, win);
    InputsValid(rnd, ws, win);
    assert ins[..i + 1][..i] == ins[..i];
    RunEntry(p, ord, ins[..i + 1]);
  }

  /** A step on the day's ranking, or on any long enough head of it, keeps the track. */
  lemma TrackStep(p: Params, ord: DefOrder, rnd: Rounding, ws: seq<Weight>, win: seq<Session>, i: nat, b: Book,
                  navs: seq<real>, cands: seq<Cand>)
    requires p.Valid() && IsDefOrder(ord) && WindowValid(rnd, ws, win) && i < |win|
    requires OnTrack(p, ord, rnd, ws, win, i, b, navs)
    requires cands <= DayRanking(rnd, win[i].panel, ws)
    requires |cands| == |DayRanking(rnd, win[i].panel, ws)| || (|cands| >= p.NExit() && |cands| >= p.holdN)
    ensures var r := StepBook(p, ord, win[i].day, cands, b);
      OnTrack(p, ord, rnd, ws, win, i + 1, r, navs + [Worth(win[i].day, r)])
  {
    hide StepBook, DayRanking, Worth;
    var ins := ReportInputs(rnd, ws, win);
    var full := DayRanking(rnd, win[i].panel, ws);
    var cut := if |cands| == |full| then |cands| + p.NExit() + p.holdN else |cands|;
    PrefixSuffices(p, ord, win[i].day, full, cut, b);
    assert full[..Top(cut, full)] == cands;
    var r := StepBook(p, ord, win[i].day, cands, b);
    assert ins[..i + 1][..i] == ins[..i];
    assert r == RunBook(p, ord, ins[..i + 1]);
    NavPrefix(p, ord, ins, i);
    NavPrefix(p, ord, ins, i + 1);
  }

  /** The report: rank column, rebuilt list, kernel, day after day. */
  method RunReport(p: Params, ord: DefOrder, rnd: Rounding, ws: seq<Weight>, win: seq<Session>) returns (navs: seq<real>)
    requires p.Valid() && IsDefOrder(ord) && WindowValid(rnd, ws, win)
    ensures navs == Nav(p, ord, rnd, ws, win)
  {
    hide StepBook, DayRanking, Worth, Priced, Sound, Decide, BoughtBook, SoldBook, DayKeeps, NavSeries;
    var eng := new Engine(p, ord);
    navs := [];
    var i := 0;
    TrackStart(p, ord, rnd, ws, win);
    while i < |win|
      invariant 0 <= i <= |win|
      invariant fresh(eng) && eng.Valid() && eng.params == p && eng.ord == ord
      invariant OnTrack(p, ord, rnd, ws, win, i, eng.BookOf(), navs)
    {
      var cands := ReportCands(rnd, win[i].panel, ws);
      DayRankingDistinct(rnd, win[i].panel, ws);
      TrackReady(p, ord, rnd, ws, win, i);
      TrackStep(p, ord, rnd, ws, win, i, eng.BookOf(), navs, cands);
      ghost var looked := eng.Step(win[i].day, cands);
      navs := navs + [eng.pvEnd];
      i := i + 1;
    }
  }

  lemma TrackStart(p: Params, ord: DefOrder, rnd: Rounding, ws: seq<Weight>, win: seq<Session>)
    requires p.Valid() && IsDefOrder(ord) && WindowValid(rnd, ws, win)
    ensures OnTrack(p, ord, rnd, ws, win, 0, START, [])
  {
  }

  // ---- the miner ----

  /** How much of the ranking the miner hands the kernel: the exit ranks and all that the buying scan may look at, and no more. */
  function PrefixNeed(p: Params): (r: nat)
    requires p.Valid()
    ensures r >= p.NExit() && r >= 2 * p.holdN >= 1 && (r == p.NExit() || r == 2 * p.holdN)
  {
    MaxInt(p.NExit(), 2 * p.holdN)
  }

  /** The pool compacted once per day, shared by every weighting. */
  method BuildBlock(panel: Panel) returns (mem: seq<nat>, blk: seq<Row>)
    requires panel.Valid()
    ensures mem == Members(panel.pool) && blk == Block(panel)
  {
    hide PctRow;
    mem := CollectMembers(panel.pool);
    blk := [];
    var tmp := new Option<real>[|mem|](_ => None);
    var f := 0;
    while f < |panel.cols|
      invariant 0 <= f <= |panel.cols| && |blk| == f
      invariant forall c :: 0 <= c < f ==> blk[c] == PctRow(Gathered(mem, panel.cols[c]))
    {
      var col := panel.cols[f];
      var q := 0;
      while q < |mem|
        invariant 0 <= q <= |mem|
        invariant forall k :: 0 <= k < q ==> tmp[k] == col[mem[k]]
      {
        tmp[q] := col[mem[q]];
        q := q + 1;
      }
      TmpIsGathered(tmp[..], mem, col);
      PctRank(tmp);
      blk := blk + [tmp[..]];
      f := f + 1;
    }
  }

  lemma TmpIsGathered(tmp: Row, mem: seq<nat>, col: Row)
    requires |tmp| == |mem| && forall k :: 0 <= k < |mem| ==> mem[k] < |col| && tmp[k] == col[mem[k]]
    ensures tmp == Gathered(mem, col)
  {
  }

  method CollectMembers(pool: seq<bool>) returns (mem: seq<nat>)
    ensures mem == Members(pool)
  {
    mem := [];
    var a := 0;
    while a < |pool|
      invariant 0 <= a <= |pool|
      invariant mem == Members(pool[..a])
    {
      assert pool[..a + 1][..a] == pool[..a];
      if pool[a] { mem := mem + [a]; }
      a := a + 1;
    }
    assert pool[..a] == pool;
  }

  lemma RankingSize(rnd: Rounding, panel: Panel, ws: seq<Weight>)
    requires panel.Valid() && PlanValid(rnd, panel, ws)
    ensures |DayRanking(rnd, panel, ws)| == |Members(panel.pool)|
  {
    RankedMultiset(Scored(panel.pool, ScoreRow(rnd, panel, ws)));
  }

  /** Whether one weighting's day may pass, by the report's own ranking of it. */
  ghost predicate DayPasses(p: Params, rnd: Rounding, panel: Panel, ws: seq<Weight>)
    requires p.Valid()
  {
    && panel.Valid() && PlanValid(rnd, panel, ws) && Members(panel.pool) != []
    && Passes(rnd, panel, ws, MinInt(|Members(panel.pool)|, PrefixNeed(p)))
  }

  /** One weighting's day: select the head and walk the kernel over it. */
  method MineDay(eng: Engine, rnd: Rounding, ws: seq<Weight>, ghost win: seq<Session>, ghost i: nat, day: Day,
                 ghost panel: Panel, mem: seq<nat>, blk: seq<Row>, acc: array<real>, sel: array<Cand>, ghost navs: seq<real>)
    returns (ok: bool)
    requires eng.Valid() && WindowValid(rnd, ws, win) && Monotone(rnd)
    requires i < |win| && day == win[i].day && panel == win[i].panel
    requires mem == Members(panel.pool) && mem != [] && blk == Block(panel)
    requires |mem| <= acc.Length && PrefixNeed(eng.params) + TIE_MARGIN <= sel.Length
    requires OnTrack(eng.params, eng.ord, rnd, ws, win, i, eng.BookOf(), navs)
    modifies eng, acc, sel
    ensures eng.Valid()
    ensures ok <==> DayPasses(eng.params, rnd, panel, ws)
    ensures ok ==> OnTrack(eng.params, eng.ord, rnd, ws, win, i + 1, eng.BookOf(), navs + [eng.pvEnd])
  {
    hide StepBook, DayRanking, Worth, Priced, Sound, Decide, BoughtBook, SoldBook, DayKeeps, Block, Acc, OnTrack, Members;
    var need := PrefixNeed(eng.params);
    var nKeep := if |mem| <= need then |mem| else need;
    var wsum := SumWeights(rnd, ws);
    ok := SelectTop(rnd, panel, blk, mem, ws, wsum, nKeep, acc, sel);
    if ok {
      var cands := sel[..nKeep];
      RankingSize(rnd, panel, ws);
      DayRankingDistinct(rnd, panel, ws);
      PrefixDistinct(cands, DayRanking(rnd, panel, ws));
      TrackReady(eng.params, eng.ord, rnd, ws, win, i);
      TrackBook(eng.params, eng.ord, rnd, ws, win, i, eng.BookOf(), navs);
      TrackStep(eng.params, eng.ord, rnd, ws, win, i, eng.BookOf(), navs, cands);
      ghost var looked := eng.Step(day, cands);
    }
  }

  lemma TrackBook(p: Params, ord: DefOrder, rnd: Rounding, ws: seq<Weight>, win: seq<Session>, i: nat, b: Book, navs: seq<real>)
    requires p.Valid() && IsDefOrder(ord) && WindowValid(rnd, ws, win)
    requires OnTrack(p, ord, rnd, ws, win, i, b, navs)
    ensures i <= |win| && b == RunBook(p, ord, ReportInputs(rnd, ws, win)[..i])
  {
  }

  lemma PrefixDistinct(s: seq<Cand>, t: seq<Cand>)
    requires s <= t && Distinct(CandAssets(t))
    ensures Distinct(CandAssets(s))
  {
    assert CandAssets(s) == CandAssets(t)[..|s|];
  }

  ghost predicate BatchValid(rnd: Rounding, plans: seq<seq<Weight>>, win: seq<Session>, maxCnt: nat) {
    && (forall b :: 0 <= b < |plans| ==> WindowValid(rnd, plans[b], win))
    && (forall i :: 0 <= i < |win| ==> win[i].panel.Valid() && 0 < |Members(win[i].panel.pool)| <= maxCnt)
  }

  /** Whether every weighting's ranking of day i lets it pass. */
  ghost predicate SessionPasses(p: Params, rnd: Rounding, plans: seq<seq<Weight>>, win: seq<Session>, i: nat)
    requires p.Valid() && i < |win|
  {
    forall b :: 0 <= b < |plans| ==> DayPasses(p, rnd, win[i].panel, plans[b])
  }

  /** Engine b of the batch is at the start of day `i`, or of the next one if its turn has passed. */
  ghost predicate BatchTrack(p: Params, ord: DefOrder, rnd: Rounding, plans: seq<seq<Weight>>, win: seq<Session>, i: nat,
                             turn: nat, engs: seq<Engine>, navs: seq<seq<real>>)
    requires p.Valid() && IsDefOrder(ord)
    requires forall b :: 0 <= b < |plans| ==> WindowValid(rnd, plans[b], win)
    reads engs
  {
    && |engs| == |navs| == |plans|
    && (forall b, c :: 0 <= b < c < |engs| ==> engs[b] != engs[c])
    && forall b :: 0 <= b < |engs| ==>
         && engs[b].Valid() && engs[b].params == p && engs[b].ord == ord
         && OnTrack(p, ord, rnd, plans[b], win, if b < turn then i + 1 else i, engs[b].BookOf(), navs[b])
  }

  /** Fresh engines, one per weighting, at the start of the window. */
  method MakeEngines(p: Params, ord: DefOrder, rnd: Rounding, plans: seq<seq<Weight>>, win: seq<Session>)
    returns (engs: seq<Engine>, navs: seq<seq<real>>)
    requires p.Valid() && IsDefOrder(ord)
    requires forall b :: 0 <= b < |plans| ==> WindowValid(rnd, plans[b], win)
    ensures forall b :: 0 <= b < |engs| ==> fresh(engs[b])
    ensures BatchTrack(p, ord, rnd, plans, win, 0, 0, engs, navs)
  {
    engs, navs := [], [];
    while |engs| < |plans|
      invariant |engs| == |navs| <= |plans|
      invariant forall b :: 0 <= b < |engs| ==> fresh(engs[b])
      invariant forall b, c :: 0 <= b < c < |engs| ==> engs[b] != engs[c]
      invariant forall b :: 0 <= b < |engs| ==>
        && engs[b].Valid() && engs[b].params == p && engs[b].ord == ord
        && engs[b].BookOf() == START && navs[b] == []
    {
      var e := new Engine(p, ord);
      engs, navs := engs + [e], navs + [[]];
    }
    forall b | 0 <= b < |plans|
      ensures OnTrack(p, ord, rnd, plans[b], win, 0, engs[b].BookOf(), navs[b])
    {
      TrackStart(p, ord, rnd, plans[b], win);
    }
  }

  /** Engine b takes its turn; the others stay where they are. */
  method MineOne(p: Params, ord: DefOrder, rnd: Rounding, ghost plans: seq<seq<Weight>>, ghost win: seq<Session>, i: nat, b: nat,
                 ws: seq<Weight>, day: Day, ghost panel: Panel, mem: seq<nat>, blk: seq<Row>, acc: array<real>, sel: array<Cand>,
                 engs: seq<Engine>, navs: seq<seq<real>>) returns (ok: bool, navs': seq<seq<real>>)
    requires p.Valid() && IsDefOrder(ord) && Monotone(rnd)
    requires forall c :: 0 <= c < |plans| ==> WindowValid(rnd, plans[c], win)
    requires i < |win| && b < |plans| && ws == plans[b] && day == win[i].day && panel == win[i].panel
    requires panel.Valid() && mem == Members(panel.pool) && mem != [] && blk == Block(panel)
    requires |mem| <= acc.Length && PrefixNeed(p) + TIE_MARGIN <= sel.Length
    requires BatchTrack(p, ord, rnd, plans, win, i, b, engs, navs)
    modifies engs, acc, sel
    ensures ok <==> DayPasses(p, rnd, panel, ws)
    ensures ok ==> BatchTrack(p, ord, rnd, plans, win, i, b + 1, engs, navs')
  {
    hide OnTrack, Members, Block;
    ok := MineDay(engs[b], rnd, ws, win, i, day, panel, mem, blk, acc, sel, navs[b]);
    navs' := navs[b := navs[b] + [engs[b].pvEnd]];
  }

  /**
   * The miner over a batch of weightings, days outside and weightings inside. It runs
   * through exactly when the report's rankings have no tie from the last place kept to
   * the last that head and margin reach, and then every weighting's series is the one
   * the report computes for it.
   */
  method RunBatch(p: Params, ord: DefOrder, rnd: Rounding, plans: seq<seq<Weight>>, win: seq<Session>, maxCnt: nat)
    returns (ok: bool, navs: seq<seq<real>>)
    requires p.Valid() && IsDefOrder(ord) && Monotone(rnd) && BatchValid(rnd, plans, win, maxCnt)
    ensures ok <==> forall i :: 0 <= i < |win| ==> SessionPasses(p, rnd, plans, win, i)
    ensures ok ==> |navs| == |plans| && forall b :: 0 <= b < |plans| ==> navs[b] == Nav(p, ord, rnd, plans[b], win)
  {
    hide OnTrack, Nav, Block, SessionPasses, BatchTrack, IsDefOrder, Monotone;
    var engs;
    engs, navs := MakeEngines(p, ord, rnd, plans, win);
    var acc, sel := new real[maxCnt](_ => 0.0), new Cand[PrefixNeed(p) + TIE_MARGIN](_ => Cand(0.0, 0));
    var i := 0;
    while i < |win|
      invariant 0 <= i <= |win|
      invariant forall b :: 0 <= b < |engs| ==> fresh(engs[b])
      invariant BatchTrack(p, ord, rnd, plans, win, i, 0, engs, navs)
      invariant forall j :: 0 <= j < i ==> SessionPasses(p, rnd, plans, win, j)
    {
      ok, navs := MineSession(p, ord, rnd, plans, win, i, acc, sel, engs, navs);
      if !ok { return; }
      i := i + 1;
    }
    ok := true;
    BatchDone(p, ord, rnd, plans, win, engs, navs);
  }

  method MineSession(p: Params, ord: DefOrder, rnd: Rounding, plans: seq<seq<Weight>>, win: seq<Session>, i: nat,
                     acc: array<real>, sel: array<Cand>, engs: seq<Engine>, navs: seq<seq<real>>)
    returns (ok: bool, navs': seq<seq<real>>)
    requires p.Valid() && IsDefOrder(ord) && Monotone(rnd) && BatchValid(rnd, plans, win, acc.Length)
    requires i < |win| && PrefixNeed(p) + TIE_MARGIN <= sel.Length
    requires BatchTrack(p, ord, rnd, plans, win, i, 0, engs, navs)
    modifies engs, acc, sel
    ensures ok <==> SessionPasses(p, rnd, plans, win, i)
    ensures ok ==> BatchTrack(p, ord, rnd, plans, win, i + 1, 0, engs, navs')
  {
    hide OnTrack, Block, DayPasses, BatchTrack, IsDefOrder, Monotone, Members, WindowValid;
    var mem, blk := BuildBlock(win[i].panel);
    navs' := navs;
    var b := 0;
    while b < |plans|
      invariant 0 <= b <= |plans|
      invariant BatchTrack(p, ord, rnd, plans, win, i, b, engs, navs')
      invariant forall c :: 0 <= c < b ==> DayPasses(p, rnd, win[i].panel, plans[c])
    {
      ok, navs' := MineOne(p, ord, rnd, plans, win, i, b, plans[b], win[i].day, win[i].panel, mem, blk, acc, sel, engs, navs');
      if !ok { return; }
      b := b + 1;
    }
    NextSession(p, ord, rnd, plans, win, i, engs, navs');
    ok := true;
  }

  /** When every engine had its turn, all are at the start of the next day. */
  lemma NextSession(p: Params, ord: DefOrder, rnd: Rounding, plans: seq<seq<Weight>>, win: seq<Session>, i: nat,
                    engs: seq<Engine>, navs: seq<seq<real>>)
    requires p.Valid() && IsDefOrder(ord) && forall b :: 0 <= b < |plans| ==> WindowValid(rnd, plans[b], win)
    requires BatchTrack(p, ord, rnd, plans, win, i, |plans|, engs, navs)
    ensures BatchTrack(p, ord, rnd, plans, win, i + 1, 0, engs, navs)
  {
    hide OnTrack, WindowValid, IsDefOrder;
  }

  lemma BatchDone(p: Params, ord: DefOrder, rnd: Rounding, plans: seq<seq<Weight>>, win: seq<Session>,
                  engs: seq<Engine>, navs: seq<seq<real>>)
    requires p.Valid() && IsDefOrder(ord)
    requires forall b :: 0 <= b < |plans| ==> WindowValid(rnd, plans[b], win)
    requires BatchTrack(p, ord, rnd, plans, win, |win|, 0, engs, navs)
    ensures |navs| == |plans|
    ensures forall b :: 0 <= b < |plans| ==> navs[b] == Nav(p, ord, rnd, plans[b], win)
  {
    hide Nav;
    forall b | 0 <= b < |plans|
      ensures navs[b] == Nav(p, ord, rnd, plans[b], win)
    {
      assert OnTrack(p, ord, rnd, plans[b], win, |win|, engs[b].BookOf(), navs[b]);
    }
  }
}
