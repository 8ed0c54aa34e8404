/**
 * Ranking a pool: the order in which candidates are read, the scores behind it,
 * and the bounded selection that finds its head without sorting the pool.
 */
module Ranking {
  import opened Common
  import opened CrossSection
  import opened CrossSectionLaws
  import opened EngineSpec
  import opened EngineStructure

  // ---- the order ----

  /** Score descending, ties by asset ascending. */
  predicate Before(x: Cand, y: Cand) {
    x.score > y.score || (x.score == y.score && x.a < y.a)
  }

  ghost predicate Ordered(s: seq<Cand>) {
    forall i, j :: 0 <= i < j < |s| ==> Before(s[i], s[j])
  }

  function PlaceAt(s: seq<Cand>, c: Cand): (p: nat)
    ensures p <= |s|
    ensures p > 0 ==> !Before(c, s[p - 1])
    ensures forall k :: p <= k < |s| ==> Before(c, s[k])
  {
    if s != [] && Before(c, s[|s| - 1]) then PlaceAt(s[..|s| - 1], c) else |s|
  }

  function Place(s: seq<Cand>, c: Cand): seq<Cand> {
    var p := PlaceAt(s, c);
    s[..p] + [c] + s[p..]
  }

  /** The ranking of a pool. */
  function Ranked(items: seq<Cand>): seq<Cand> {
    if items == [] then [] else Place(Ranked(items[..|items| - 1]), items[|items| - 1])
  }

  lemma PlaceOrdered(s: seq<Cand>, c: Cand)
    requires Ordered(s) && forall k :: 0 <= k < |s| ==> s[k].a != c.a
    ensures Ordered(Place(s, c))
  {
    var p := PlaceAt(s, c);
    var t := Place(s, c);
    assert p > 0 ==> Before(s[p - 1], c);
    assert forall k :: 0 <= k < p ==> t[k] == s[k];
    assert forall k :: p < k < |t| ==> t[k] == s[k - 1];
    forall i, j | 0 <= i < j < |t|
      ensures Before(t[i], t[j])
    {
      if j == p && i < p - 1 {
        assert Before(s[i], s[p - 1]);
      }
    }
  }

  lemma PlaceMultiset(s: seq<Cand>, c: Cand)
    ensures multiset(Place(s, c)) == multiset(s) + multiset{c}
  {
    var p := PlaceAt(s, c);
    assert s == s[..p] + s[p..];
  }

  ghost predicate DistinctAssets(items: seq<Cand>) {
    Distinct(CandAssets(items))
  }

  lemma {:induction false} RankedMultiset(items: seq<Cand>)
    ensures multiset(Ranked(items)) == multiset(items)
    ensures |Ranked(items)| == |items|
    ensures forall c :: c in Ranked(items) <==> c in items
  {
    if items != [] {
      var n := |items| - 1;
      RankedMultiset(items[..n]);
      PlaceMultiset(Ranked(items[..n]), items[n]);
      assert items == items[..n] + [items[n]];
    }
    var m := multiset(items);
    assert forall c :: c in Ranked(items) <==> c in multiset(Ranked(items));
    assert forall c :: c in items <==> c in m;
    assert |multiset(Ranked(items))| == |Ranked(items)|;
  }

  /** The ranking is strictly ordered and lists exactly the pool. */
  lemma {:induction false} RankedOrdered(items: seq<Cand>)
    requires DistinctAssets(items)
    ensures Ordered(Ranked(items))
  {
    if items != [] {
      var n := |items| - 1;
      var init := items[..n];
      assert CandAssets(items) == CandAssets(init) + [items[n].a];
      DistinctSnoc(CandAssets(init), items[n].a);
      RankedOrdered(init);
      RankedMultiset(init);
      forall k | 0 <= k < |Ranked(init)|
        ensures Ranked(init)[k].a != items[n].a
      {
        assert Ranked(init)[k] in init;
        var q :| 0 <= q < |init| && init[q] == Ranked(init)[k];
        assert CandAssets(init)[q] == init[q].a;
      }
      PlaceOrdered(Ranked(init), items[n]);
    }
  }

  /** There is only one ordered listing of the same candidates. */
  lemma {:induction false} OrderedUnique(s: seq<Cand>, t: seq<Cand>)
    requires Ordered(s) && Ordered(t) && multiset(s) == multiset(t)
    ensures s == t
    decreases |s|
  {
    assert |multiset(s)| == |s| && |multiset(t)| == |t|;
    if s != [] {
      HeadsAgree(s, t);
      assert s == [s[0]] + s[1..] && t == [t[0]] + t[1..];
      assert multiset(s[1..]) == multiset(s) - multiset{s[0]};
      assert multiset(t[1..]) == multiset(t) - multiset{s[0]};
      OrderedUnique(s[1..], t[1..]);
    }
  }

  lemma HeadsAgree(s: seq<Cand>, t: seq<Cand>)
    requires Ordered(s) && Ordered(t) && multiset(s) == multiset(t) && s != [] && t != []
    ensures s[0] == t[0]
  {
    assert s[0] in multiset(t) && t[0] in multiset(s);
    var i :| 0 <= i < |t| && t[i] == s[0];
    var j :| 0 <= j < |s| && s[j] == t[0];
    assert i == 0 || Before(t[0], t[i]);
    assert i == 0 || j == 0;
  }

  lemma OrderedIsRanked(s: seq<Cand>, items: seq<Cand>)
    requires Ordered(s) && multiset(s) == multiset(items) && DistinctAssets(items)
    ensures s == Ranked(items)
  {
    RankedOrdered(items);
    RankedMultiset(items);
    OrderedUnique(s, Ranked(items));
  }

  lemma OrderedDistinct(s: seq<Cand>)
    requires Distinct(CandAssets(s))
    ensures forall i, j :: 0 <= i < j < |s| ==> s[i].a != s[j].a
  {
    assert forall i :: 0 <= i < |s| ==> CandAssets(s)[i] == s[i].a;
  }

  // ---- scores ----

  /** Rounding to the machine's numbers: all that is known is that it keeps weak order. */
  type Rounding = real -> real

  ghost predicate Monotone(rnd: Rounding) {
    forall x, y :: x <= y ==> rnd(x) <= rnd(y)
  }

  datatype Weight = Weight(col: nat, w: real)

  /** One day of the pool and its factor columns. */
  datatype Panel = Panel(pool: seq<bool>, cols: seq<Row>) {
    /** The factor contract: aligned columns, finite inside the pool. */
    ghost predicate Valid() {
      && (forall c :: 0 <= c < |cols| ==> |cols[c]| == |pool|)
      && (forall c, a :: 0 <= c < |cols| && 0 <= a < |pool| && pool[a] ==> cols[c][a].Some?)
    }
  }

  function At(row: Row, k: nat): real {
    if k < |row| && row[k].Some? then row[k].value else 0.0
  }

  /** The cell a weight reads for member k. */
  function Cell(rows: seq<Row>, c: nat, k: nat): real {
    if c < |rows| then At(rows[c], k) else 0.0
  }

  function Term(wt: Weight, rows: seq<Row>, k: nat): real {
    wt.w * Cell(rows, wt.col, k)
  }

  /** The weighted sum of one member's percentiles, rounded at every step. */
  function Acc(rnd: Rounding, ws: seq<Weight>, rows: seq<Row>, k: nat): real {
    if ws == [] then 0.0
    else
      var last := ws[|ws| - 1];
      rnd(Acc(rnd, ws[..|ws| - 1], rows, k) + rnd(Term(last, rows, k)))
  }

  lemma AccNext(rnd: Rounding, ws: seq<Weight>, rows: seq<Row>, k: nat, q: nat)
    requires q < |ws|
    ensures Acc(rnd, ws[..q + 1], rows, k) == rnd(Acc(rnd, ws[..q], rows, k) + rnd(Term(ws[q], rows, k)))
  {
    assert ws[..q + 1][..q] == ws[..q];
  }

  function AbsReal(x: real): real { if x < 0.0 then -x else x }

  function WSum(rnd: Rounding, ws: seq<Weight>): real {
    if ws == [] then 0.0 else rnd(WSum(rnd, ws[..|ws| - 1]) + AbsReal(ws[|ws| - 1].w))
  }

  ghost predicate PlanValid(rnd: Rounding, panel: Panel, ws: seq<Weight>) {
    && WSum(rnd, ws) > 0.0
    && forall q :: 0 <= q < |ws| ==> ws[q].col < |panel.cols|
  }

  function Scaled(rnd: Rounding, acc: real, wsum: real): real
    requires wsum > 0.0
  {
    rnd(acc / wsum)
  }

  /** Percentiles inside the pool, on the full row. */
  function PoolPct(panel: Panel): (r: seq<Row>)
    requires panel.Valid()
    ensures |r| == |panel.cols| && forall c :: 0 <= c < |r| ==> |r[c]| == |panel.pool|
  {
    seq(|panel.cols|, c requires 0 <= c < |panel.cols| => PctRow(Masked(panel.pool, panel.cols[c])))
  }

  /** The same percentiles on the compacted pool. */
  function Block(panel: Panel): (r: seq<Row>)
    requires panel.Valid()
  {
    seq(|panel.cols|, c requires 0 <= c < |panel.cols| => PctRow(Gathered(Members(panel.pool), panel.cols[c])))
  }

  /** The score column: zero outside the pool. */
  function ScoreRow(rnd: Rounding, panel: Panel, ws: seq<Weight>): (r: seq<real>)
    requires panel.Valid() && PlanValid(rnd, panel, ws)
    ensures |r| == |panel.pool|
  {
    seq(|panel.pool|, a requires 0 <= a < |panel.pool| =>
      if panel.pool[a] then Scaled(rnd, Acc(rnd, ws, PoolPct(panel), a), WSum(rnd, ws)) else 0.0)
  }

  /** The pool's members with the scores of a column. */
  function Scored(pool: seq<bool>, score: seq<real>): (r: seq<Cand>)
    requires |pool| == |score|
  {
    var mem := Members(pool);
    seq(|mem|, k requires 0 <= k < |mem| => Cand(score[mem[k]], mem[k]))
  }

  /** The members with the sums of the compacted block, not yet divided. */
  function RawItems(rnd: Rounding, panel: Panel, ws: seq<Weight>): (r: seq<Cand>)
    requires panel.Valid()
  {
    var mem := Members(panel.pool);
    seq(|mem|, k requires 0 <= k < |mem| => Cand(Acc(rnd, ws, Block(panel), k), mem[k]))
  }

  function Norm(rnd: Rounding, wsum: real, c: Cand): Cand
    requires wsum > 0.0
  {
    Cand(Scaled(rnd, c.score, wsum), c.a)
  }

  function NormAll(rnd: Rounding, wsum: real, s: seq<Cand>): (r: seq<Cand>)
    requires wsum > 0.0
    ensures |r| == |s|
  {
    seq(|s|, k requires 0 <= k < |s| => Norm(rnd, wsum, s[k]))
  }

  lemma {:induction false} AccAgree(rnd: Rounding, ws: seq<Weight>, r: seq<Row>, s: seq<Row>, j: nat, k: nat)
    requires forall q :: 0 <= q < |ws| ==> Cell(r, ws[q].col, j) == Cell(s, ws[q].col, k)
    ensures Acc(rnd, ws, r, j) == Acc(rnd, ws, s, k)
  {
    if ws != [] {
      var n := |ws| - 1;
      AccAgree(rnd, ws[..n], r, s, j, k);
      assert Term(ws[n], r, j) == Term(ws[n], s, k);
    }
  }

  lemma AccCompact(rnd: Rounding, panel: Panel, ws: seq<Weight>, k: nat)
    requires panel.Valid() && k < |Members(panel.pool)|
    requires forall q :: 0 <= q < |ws| ==> ws[q].col < |panel.cols|
    ensures Acc(rnd, ws, Block(panel), k) == Acc(rnd, ws, PoolPct(panel), Members(panel.pool)[k])
  {
    forall q | 0 <= q < |ws|
      ensures Cell(Block(panel), ws[q].col, k) == Cell(PoolPct(panel), ws[q].col, Members(panel.pool)[k])
    {
      CellCompact(panel, ws[q].col, k);
    }
    AccAgree(rnd, ws, Block(panel), PoolPct(panel), k, Members(panel.pool)[k]);
  }

  lemma CellCompact(panel: Panel, c: nat, k: nat)
    requires panel.Valid() && c < |panel.cols| && k < |Members(panel.pool)|
    ensures Cell(Block(panel), c, k) == Cell(PoolPct(panel), c, Members(panel.pool)[k])
  {
    hide PctRow;
    var col, mem := panel.cols[c], Members(panel.pool);
    CompactPct(panel.pool, col, k);
    assert Block(panel)[c] == PctRow(Gathered(mem, col));
    assert PoolPct(panel)[c] == PctRow(Masked(panel.pool, col));
    assert |PctRow(Gathered(mem, col))| == |mem|;
    assert |PctRow(Masked(panel.pool, col))| == |panel.pool|;
  }

  /** The score column of the report and the compacted sums of the miner describe the same candidates. */
  lemma SameItems(rnd: Rounding, panel: Panel, ws: seq<Weight>)
    requires panel.Valid() && PlanValid(rnd, panel, ws)
    ensures Scored(panel.pool, ScoreRow(rnd, panel, ws)) == NormAll(rnd, WSum(rnd, ws), RawItems(rnd, panel, ws))
    ensures DistinctAssets(Scored(panel.pool, ScoreRow(rnd, panel, ws)))
  {
    var mem := Members(panel.pool);
    var x, y := Scored(panel.pool, ScoreRow(rnd, panel, ws)), NormAll(rnd, WSum(rnd, ws), RawItems(rnd, panel, ws));
    forall k | 0 <= k < |mem|
      ensures x[k] == y[k]
    {
      AccCompact(rnd, panel, ws, k);
    }
    assert forall k :: 0 <= k < |mem| ==> CandAssets(x)[k] == mem[k];
  }

  /** What the kernel is given: the ranking of the day's pool. */
  function DayRanking(rnd: Rounding, panel: Panel, ws: seq<Weight>): seq<Cand>
    requires panel.Valid() && PlanValid(rnd, panel, ws)
  {
    Ranked(Scored(panel.pool, ScoreRow(rnd, panel, ws)))
  }

  lemma DayRankingDistinct(rnd: Rounding, panel: Panel, ws: seq<Weight>)
    requires panel.Valid() && PlanValid(rnd, panel, ws)
    ensures Distinct(CandAssets(DayRanking(rnd, panel, ws)))
  {
    var items := Scored(panel.pool, ScoreRow(rnd, panel, ws));
    SameItems(rnd, panel, ws);
    RankedMultiset(items);
    OrderedDistinct(items);
    DistinctByAsset(items, Ranked(items));
  }

  lemma DistinctByAsset(s: seq<Cand>, t: seq<Cand>)
    requires DistinctAssets(s) && multiset(s) == multiset(t)
    ensures DistinctAssets(t)
  {
    OrderedDistinct(s);
    assert Distinct(s);
    DistinctPermutation(s, t);
    assert forall i :: 0 <= i < |t| ==> t[i] in multiset(t);
    assert forall c :: c in multiset(s) ==> c in s;
    forall i, j | 0 <= i < j < |CandAssets(t)|
      ensures CandAssets(t)[i] != CandAssets(t)[j]
    {
      assert t[i] in s && t[j] in s && t[i] != t[j];
    }
  }
}
