/**
 * What the score column is for: it weighs how the pool's members stand in each factor,
 * a positive weight for the factor and a negative one against it.
 */
module ScoreLaws {
  import opened Common
  import opened CrossSection
  import opened CrossSectionLaws
  import opened EngineSpec
  import opened EngineStructure
  import opened Ranking

  // ---- how a member stands in a column ----

  ghost predicate Inside(panel: Panel, b: nat) {
    b < |panel.pool| && panel.pool[b]
  }

  function ValueAt(panel: Panel, c: nat, a: nat): real
    requires panel.Valid() && c < |panel.cols| && a < |panel.pool| && panel.pool[a]
  {
    panel.cols[c][a].value
  }

  /** The pool's members that stand below a in column c. */
  ghost function Lower(panel: Panel, c: nat, a: nat): set<nat>
    requires panel.Valid() && c < |panel.cols| && a < |panel.pool| && panel.pool[a]
  {
    set b: nat | b < |panel.pool| && panel.pool[b] && ValueAt(panel, c, b) < ValueAt(panel, c, a)
  }

  /** Those that stand with a, itself among them. */
  ghost function Level(panel: Panel, c: nat, a: nat): set<nat>
    requires panel.Valid() && c < |panel.cols| && a < |panel.pool| && panel.pool[a]
  {
    set b: nat | b < |panel.pool| && panel.pool[b] && ValueAt(panel, c, b) == ValueAt(panel, c, a)
  }

  ghost function Pool(panel: Panel): set<nat> {
    set b: nat | b < |panel.pool| && panel.pool[b]
  }

  /** Where a stands: how many of the others are below it, those level with it counting half. */
  ghost function Standing(panel: Panel, c: nat, a: nat): real
    requires panel.Valid() && c < |panel.cols| && a < |panel.pool| && panel.pool[a]
  {
    if |Pool(panel)| > 1 then
      (|Lower(panel, c, a)| as real + (|Level(panel, c, a)| - 1) as real / 2.0) / (|Pool(panel)| - 1) as real
    else 0.5
  }

  lemma MaskedWhere(panel: Panel, c: nat, a: nat)
    requires panel.Valid() && c < |panel.cols| && a < |panel.pool| && panel.pool[a]
    ensures var x, v := Masked(panel.pool, panel.cols[c]), ValueAt(panel, c, a);
      Where(x, Below(v)) == Lower(panel, c, a) && Where(x, Same(v)) == Level(panel, c, a) && Where(x, Any()) == Pool(panel)
  {
  }

  lemma CellIs(panel: Panel, c: nat, a: nat)
    requires panel.Valid() && c < |panel.cols| && a < |panel.pool| && panel.pool[a]
    ensures Cell(PoolPct(panel), c, a) == Pct(Masked(panel.pool, panel.cols[c]), ValueAt(panel, c, a))
  {
    var x := Masked(panel.pool, panel.cols[c]);
    assert x[a] == panel.cols[c][a];
    assert PoolPct(panel)[c] == PctRow(x);
    hide Pct;
    assert PctRow(x)[a] == Some(Pct(x, x[a].value));
  }

  /** What the score reads of a factor is the member's standing in it. */
  lemma CellStanding(panel: Panel, c: nat, a: nat)
    requires panel.Valid() && c < |panel.cols| && a < |panel.pool| && panel.pool[a]
    ensures Cell(PoolPct(panel), c, a) == Standing(panel, c, a)
  {
    var x, v := Masked(panel.pool, panel.cols[c]), ValueAt(panel, c, a);
    CellIs(panel, c, a);
    MaskedWhere(panel, c, a);
    CountIsPositions(x, Below(v));
    CountIsPositions(x, Same(v));
    CountIsPositions(x, Any());
    PctMeaning(x, v);
    hide Where, Lower, Level, Pool, Masked, Pct, Count, Cell;
  }

  // ---- exact scores ----

  const EXACT: Rounding := (x: real) => x

  /** The weights without their signs, together. */
  function Gross(ws: seq<Weight>): real {
    if ws == [] then 0.0 else Gross(ws[..|ws| - 1]) + MaxReal(ws[|ws| - 1].w, -ws[|ws| - 1].w)
  }

  ghost predicate Reads(panel: Panel, ws: seq<Weight>) {
    panel.Valid() && forall q :: 0 <= q < |ws| ==> ws[q].col < |panel.cols|
  }

  /** The signed weights of the differences in standing between two members. */
  ghost function Lead(panel: Panel, ws: seq<Weight>, a: nat, b: nat): real
    requires Reads(panel, ws) && Inside(panel, a) && Inside(panel, b)
  {
    if ws == [] then 0.0
    else
      var n := |ws| - 1;
      Lead(panel, ws[..n], a, b) + ws[n].w * (Standing(panel, ws[n].col, a) - Standing(panel, ws[n].col, b))
  }

  lemma {:induction false} GrossIs(ws: seq<Weight>)
    ensures WSum(EXACT, ws) == Gross(ws)
  {
    if ws != [] {
      GrossIs(ws[..|ws| - 1]);
    }
  }

  lemma {:induction false} SumsDiffer(panel: Panel, ws: seq<Weight>, a: nat, b: nat)
    requires Reads(panel, ws) && Inside(panel, a) && Inside(panel, b)
    ensures Acc(EXACT, ws, PoolPct(panel), a) - Acc(EXACT, ws, PoolPct(panel), b) == Lead(panel, ws, a, b)
  {
    hide Cell, Standing, PoolPct;
    if ws != [] {
      var n := |ws| - 1;
      SumsDiffer(panel, ws[..n], a, b);
      CellStanding(panel, ws[n].col, a);
      CellStanding(panel, ws[n].col, b);
      Spread(ws[n].w, Standing(panel, ws[n].col, a), Standing(panel, ws[n].col, b));
    }
  }

  lemma Spread(w: real, x: real, y: real)
    ensures w * x - w * y == w * (x - y)
  {
  }

  lemma ScoreIs(panel: Panel, ws: seq<Weight>, a: nat)
    requires panel.Valid() && PlanValid(EXACT, panel, ws) && a < |panel.pool|
    ensures Gross(ws) > 0.0 && Reads(panel, ws)
    ensures ScoreRow(EXACT, panel, ws)[a] == if panel.pool[a] then Acc(EXACT, ws, PoolPct(panel), a) / Gross(ws) else 0.0
  {
    GrossIs(ws);
    hide Acc, Gross, PoolPct;
  }

  /**
   * With exact arithmetic the difference of two members' scores, times the weights
   * without their signs, is the signed sum of their differences in standing; outside the
   * pool the score is zero.
   */
  lemma ScoreLead(panel: Panel, ws: seq<Weight>, a: nat, b: nat)
    requires panel.Valid() && PlanValid(EXACT, panel, ws) && Inside(panel, a) && Inside(panel, b)
    ensures var s := ScoreRow(EXACT, panel, ws);
      && Gross(ws) > 0.0 && (s[a] - s[b]) * Gross(ws) == Lead(panel, ws, a, b)
      && forall c :: 0 <= c < |s| && !panel.pool[c] ==> s[c] == 0.0
  {
    hide *;
    InPool(panel, a);
    InPool(panel, b);
    ScoreIs(panel, ws, a);
    ScoreIs(panel, ws, b);
    forall c | 0 <= c < |panel.pool| && !panel.pool[c]
      ensures ScoreRow(EXACT, panel, ws)[c] == 0.0
    {
      ScoreIs(panel, ws, c);
    }
    SumsDiffer(panel, ws, a, b);
    Divided(Acc(EXACT, ws, PoolPct(panel), a), Acc(EXACT, ws, PoolPct(panel), b), Gross(ws));
  }

  lemma InPool(panel: Panel, a: nat)
    ensures Inside(panel, a) <==> a < |panel.pool| && panel.pool[a]
  {
  }

  lemma Divided(x: real, y: real, d: real)
    requires d > 0.0
    ensures (x / d - y / d) * d == x - y
  {
    DivBack(x, d);
    DivBack(y, d);
  }

  // ---- any rounding ----

  /** In every factor, a stands no worse than b as the weight's sign has it. */
  ghost predicate Dominates(panel: Panel, ws: seq<Weight>, a: nat, b: nat)
    requires Reads(panel, ws) && Inside(panel, a) && Inside(panel, b)
  {
    forall q :: 0 <= q < |ws| ==>
      && (ws[q].w > 0.0 ==> ValueAt(panel, ws[q].col, a) >= ValueAt(panel, ws[q].col, b))
      && (ws[q].w < 0.0 ==> ValueAt(panel, ws[q].col, a) <= ValueAt(panel, ws[q].col, b))
  }

  lemma CellOrder(panel: Panel, c: nat, a: nat, b: nat)
    requires panel.Valid() && c < |panel.cols| && Inside(panel, a) && Inside(panel, b)
    ensures ValueAt(panel, c, a) < ValueAt(panel, c, b) <==> Cell(PoolPct(panel), c, a) < Cell(PoolPct(panel), c, b)
  {
    var x := Masked(panel.pool, panel.cols[c]);
    CellIs(panel, c, a);
    CellIs(panel, c, b);
    assert x[a] == panel.cols[c][a] && x[b] == panel.cols[c][b];
    hide Cell, Pct, PoolPct;
    PctOrder(x, a, b);
  }

  lemma Scales(w: real, x: real, y: real)
    requires (w > 0.0 ==> x >= y) && (w < 0.0 ==> x <= y)
    ensures w * x >= w * y
  {
    if w > 0.0 { assert w * (x - y) >= 0.0; } else if w < 0.0 { assert -w * (y - x) >= 0.0; }
  }

  lemma {:induction false} SumsOrder(rnd: Rounding, panel: Panel, ws: seq<Weight>, a: nat, b: nat)
    requires Monotone(rnd) && Reads(panel, ws) && Inside(panel, a) && Inside(panel, b) && Dominates(panel, ws, a, b)
    ensures Acc(rnd, ws, PoolPct(panel), a) >= Acc(rnd, ws, PoolPct(panel), b)
  {
    hide Cell, PoolPct, ValueAt, Monotone;
    if ws != [] {
      var n := |ws| - 1;
      SumsOrder(rnd, panel, ws[..n], a, b);
      assert ws[n].col < |panel.cols|;
      CellOrder(panel, ws[n].col, a, b);
      CellOrder(panel, ws[n].col, b, a);
      var rows := PoolPct(panel);
      Scales(ws[n].w, Cell(rows, ws[n].col, a), Cell(rows, ws[n].col, b));
      Rounds(rnd, Term(ws[n], rows, b), Term(ws[n], rows, a));
      Rounds(rnd, Acc(rnd, ws[..n], rows, b) + rnd(Term(ws[n], rows, b)), Acc(rnd, ws[..n], rows, a) + rnd(Term(ws[n], rows, a)));
    }
  }

  lemma Rounds(rnd: Rounding, x: real, y: real)
    requires Monotone(rnd) && x <= y
    ensures rnd(x) <= rnd(y)
  {
  }

  /** However the sums are rounded, a member that stands no worse in any factor scores no less. */
  lemma Dominance(rnd: Rounding, panel: Panel, ws: seq<Weight>, a: nat, b: nat)
    requires Monotone(rnd) && panel.Valid() && PlanValid(rnd, panel, ws) && Inside(panel, a) && Inside(panel, b)
    requires Dominates(panel, ws, a, b)
    ensures ScoreRow(rnd, panel, ws)[a] >= ScoreRow(rnd, panel, ws)[b]
  {
    SumsOrder(rnd, panel, ws, a, b);
    var x, y, d := Acc(rnd, ws, PoolPct(panel), a), Acc(rnd, ws, PoolPct(panel), b), WSum(rnd, ws);
    DivSign(x - y, d);
    DivSub(y, x, d);
    Rounds(rnd, y / d, x / d);
    hide Acc, WSum, PoolPct, Dominates, Monotone;
  }

  /** One factor alone: the scores follow its values under a positive weight and run against them under a negative one. */
  lemma OneFactor(rnd: Rounding, panel: Panel, wt: Weight, a: nat, b: nat)
    requires Monotone(rnd) && panel.Valid() && PlanValid(rnd, panel, [wt]) && Inside(panel, a) && Inside(panel, b)
    requires wt.col < |panel.cols| && ValueAt(panel, wt.col, b) <= ValueAt(panel, wt.col, a)
    ensures var s := ScoreRow(rnd, panel, [wt]);
      (wt.w > 0.0 ==> s[b] <= s[a]) && (wt.w < 0.0 ==> s[a] <= s[b])
  {
    hide ScoreRow, ValueAt;
    if wt.w > 0.0 {
      Dominance(rnd, panel, [wt], a, b);
    } else if wt.w < 0.0 {
      Dominance(rnd, panel, [wt], b, a);
    }
  }

  // ---- turning the signs ----

  function Turned(ws: seq<Weight>): (r: seq<Weight>)
    ensures |r| == |ws|
  {
    seq(|ws|, q requires 0 <= q < |ws| => ws[q].(w := -ws[q].w))
  }

  lemma {:induction false} TurnedSums(ws: seq<Weight>, rows: seq<Row>, k: nat)
    ensures Acc(EXACT, Turned(ws), rows, k) == -Acc(EXACT, ws, rows, k) && Gross(Turned(ws)) == Gross(ws)
  {
    hide Cell;
    if ws != [] {
      var n := |ws| - 1;
      assert Turned(ws)[..n] == Turned(ws[..n]);
      TurnedSums(ws[..n], rows, k);
    }
  }

  /** Turning every weight's sign turns the sign of every exact score. */
  lemma TurnedScores(panel: Panel, ws: seq<Weight>, a: nat)
    requires panel.Valid() && PlanValid(EXACT, panel, ws) && a < |panel.pool|
    ensures PlanValid(EXACT, panel, Turned(ws))
    ensures ScoreRow(EXACT, panel, Turned(ws))[a] == -ScoreRow(EXACT, panel, ws)[a]
  {
    GrossIs(ws);
    GrossIs(Turned(ws));
    TurnedSums(ws, PoolPct(panel), a);
    TurnedPlan(panel, ws);
    hide *;
    ScoreIs(panel, ws, a);
    ScoreIs(panel, Turned(ws), a);
    DivSub(Acc(EXACT, ws, PoolPct(panel), a), 0.0, Gross(ws));
    DivIs(0.0, Gross(ws), 0.0);
  }

  lemma TurnedPlan(panel: Panel, ws: seq<Weight>)
    requires panel.Valid() && PlanValid(EXACT, panel, ws)
    ensures PlanValid(EXACT, panel, Turned(ws))
  {
    GrossIs(ws);
    GrossIs(Turned(ws));
    TurnedSums(ws, [], 0);
    hide WSum, Gross;
  }

  // ---- the ranking ----

  /** Where the ranking puts a before b. */
  ghost predicate Ahead(r: seq<Cand>, a: nat, b: nat) {
    exists i, j :: 0 <= i < j < |r| && r[i].a == a && r[j].a == b
  }

  lemma ListedOnce(rnd: Rounding, panel: Panel, ws: seq<Weight>, a: nat) returns (i: nat)
    requires panel.Valid() && PlanValid(rnd, panel, ws) && Inside(panel, a)
    ensures var r := DayRanking(rnd, panel, ws);
      i < |r| && r[i] == Cand(ScoreRow(rnd, panel, ws)[a], a) && Ordered(r)
  {
    var items := Scored(panel.pool, ScoreRow(rnd, panel, ws));
    SameItems(rnd, panel, ws);
    RankedOrdered(items);
    RankedMultiset(items);
    var k :| 0 <= k < |Members(panel.pool)| && Members(panel.pool)[k] == a;
    assert items[k] == Cand(ScoreRow(rnd, panel, ws)[a], a);
    hide ScoreRow, Ranked, Members;
    assert items[k] in Ranked(items);
    i :| 0 <= i < |Ranked(items)| && Ranked(items)[i] == items[k];
  }

  /**
   * The day's ranking under exact arithmetic: of two members the one that leads, by the
   * signed sum of the differences in standing, is listed first; without a lead, the one
   * with the lower number.
   */
  lemma LeadRanks(panel: Panel, ws: seq<Weight>, a: nat, b: nat)
    requires panel.Valid() && PlanValid(EXACT, panel, ws) && Inside(panel, a) && Inside(panel, b) && a != b
    ensures Ahead(DayRanking(EXACT, panel, ws), a, b) <==>
      Lead(panel, ws, a, b) > 0.0 || (Lead(panel, ws, a, b) == 0.0 && a < b)
  {
    hide *;
    InPool(panel, a);
    InPool(panel, b);
    ScoreLead(panel, ws, a, b);
    var i := ListedOnce(EXACT, panel, ws, a);
    var j := ListedOnce(EXACT, panel, ws, b);
    var s := ScoreRow(EXACT, panel, ws);
    SignOf(s[a] - s[b], Gross(ws));
    DayRankingDistinct(EXACT, panel, ws);
    PlacesCompare(DayRanking(EXACT, panel, ws), i, j);
  }

  lemma PlacesCompare(r: seq<Cand>, i: nat, j: nat)
    requires Ordered(r) && i < |r| && j < |r| && r[i].a != r[j].a && Distinct(CandAssets(r))
    ensures Ahead(r, r[i].a, r[j].a) <==> r[i].score > r[j].score || (r[i].score == r[j].score && r[i].a < r[j].a)
  {
    OrderedDistinct(r);
    if i < j {
      assert Before(r[i], r[j]);
    } else {
      assert Before(r[j], r[i]);
    }
  }

  lemma SignOf(x: real, g: real)
    requires g > 0.0
    ensures (x * g > 0.0 <==> x > 0.0) && (x * g == 0.0 <==> x == 0.0)
  {
    if x > 0.0 { assert x * g > 0.0; } else if x < 0.0 { assert (-x) * g > 0.0; }
  }
}
