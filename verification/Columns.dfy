/**
 * The report's path to a candidate list: the score column, the rank column, and
 * the list rebuilt from the two.
 */
module Columns {
  import opened Common
  import opened CrossSection
  import opened CrossSectionLaws
  import opened EngineSpec
  import opened EngineStructure
  import opened Ranking

  /** One factor column, blanked outside the pool. */
  method LoadMasked(pool: seq<bool>, col: Row, buf: array<Option<real>>)
    requires |pool| == |col| == buf.Length
    modifies buf
    ensures buf[..] == Masked(pool, col)
  {
    var a := 0;
    while a < |pool|
      invariant 0 <= a <= |pool|
      invariant forall k :: 0 <= k < a ==> buf[k] == Masked(pool, col)[k]
    {
      buf[a] := if pool[a] then col[a] else None;
      a := a + 1;
    }
  }

  /** Adds one weighted column of percentiles to the pool's sums. */
  method AddTerm(rnd: Rounding, pool: seq<bool>, wt: Weight, ghost rows: seq<Row>, pct: array<Option<real>>, sums: array<real>)
    requires pct.Length == sums.Length == |pool|
    requires forall a :: 0 <= a < |pool| && pool[a] ==> pct[a].Some? && pct[a].value == Cell(rows, wt.col, a)
    modifies sums
    ensures forall a :: 0 <= a < |pool| ==>
      sums[a] == if pool[a] then rnd(old(sums[a]) + rnd(Term(wt, rows, a))) else old(sums[a])
  {
    hide Cell;
    var a := 0;
    while a < |pool|
      invariant 0 <= a <= |pool|
      invariant forall k :: 0 <= k < a ==>
        sums[k] == if pool[k] then rnd(old(sums[k]) + rnd(Term(wt, rows, k))) else old(sums[k])
      invariant forall k :: a <= k < |pool| ==> sums[k] == old(sums[k])
    {
      if pool[a] {
        var term := wt.w * pct[a].value;
        assert term == Term(wt, rows, a);
        sums[a] := rnd(sums[a] + rnd(term));
      }
      a := a + 1;
    }
  }

  lemma CellFinite(panel: Panel, c: nat, a: nat)
    requires panel.Valid() && c < |panel.cols| && a < |panel.pool| && panel.pool[a]
    ensures PoolPct(panel)[c][a].Some? && PoolPct(panel)[c][a].value == Cell(PoolPct(panel), c, a)
  {
    assert |PctRow(Masked(panel.pool, panel.cols[c]))| == |panel.pool|;
  }

  method Zero(buf: array<real>)
    modifies buf
    ensures forall k :: 0 <= k < buf.Length ==> buf[k] == 0.0
  {
    var a := 0;
    while a < buf.Length
      invariant 0 <= a <= buf.Length
      invariant forall k :: 0 <= k < a ==> buf[k] == 0.0
    {
      buf[a] := 0.0;
      a := a + 1;
    }
  }

  method SumWeights(rnd: Rounding, ws: seq<Weight>) returns (wsum: real)
    ensures wsum == WSum(rnd, ws)
  {
    wsum := 0.0;
    var q := 0;
    while q < |ws|
      invariant 0 <= q <= |ws|
      invariant wsum == WSum(rnd, ws[..q])
    {
      assert ws[..q + 1][..q] == ws[..q];
      wsum := rnd(wsum + AbsReal(ws[q].w));
      q := q + 1;
    }
    assert ws[..q] == ws;
  }

  method AddAll(rnd: Rounding, panel: Panel, ws: seq<Weight>, bufA: array<real>, bufC: array<Option<real>>)
    requires panel.Valid() && PlanValid(rnd, panel, ws)
    requires bufA.Length == bufC.Length == |panel.pool|
    requires forall k :: 0 <= k < bufA.Length ==> bufA[k] == 0.0
    modifies bufA, bufC
    ensures forall k :: 0 <= k < bufA.Length && panel.pool[k] ==> bufA[k] == Acc(rnd, ws, PoolPct(panel), k)
  {
    hide Acc, PctRow, Masked, PoolPct, WSum, Term, Cell;
    ghost var rows := PoolPct(panel);
    assert ws[..0] == [];
    AccEmpty(rnd, rows);
    var q := 0;
    while q < |ws|
      invariant 0 <= q <= |ws|
      invariant forall k :: 0 <= k < bufA.Length && panel.pool[k] ==> bufA[k] == Acc(rnd, ws[..q], rows, k)
    {
      AddColumn(rnd, panel, ws[q], bufA, bufC);
      forall k | 0 <= k < bufA.Length
        ensures Acc(rnd, ws[..q + 1], rows, k) == rnd(Acc(rnd, ws[..q], rows, k) + rnd(Term(ws[q], rows, k)))
      {
        AccNext(rnd, ws, rows, k, q);
      }
      q := q + 1;
    }
    assert ws[..q] == ws;
  }

  method AddColumn(rnd: Rounding, panel: Panel, wt: Weight, bufA: array<real>, bufC: array<Option<real>>)
    requires panel.Valid() && wt.col < |panel.cols|
    requires bufA.Length == bufC.Length == |panel.pool|
    modifies bufA, bufC
    ensures forall a :: 0 <= a < bufA.Length && panel.pool[a] ==>
      bufA[a] == rnd(old(bufA[a]) + rnd(Term(wt, PoolPct(panel), a)))
  {
    hide PctRow, Masked, PoolPct, Term, Cell;
    LoadMasked(panel.pool, panel.cols[wt.col], bufC);
    PctRank(bufC);
    LoadedCells(panel, wt.col, bufC[..]);
    AddTerm(rnd, panel.pool, wt, PoolPct(panel), bufC, bufA);
  }

  lemma AccEmpty(rnd: Rounding, rows: seq<Row>)
    ensures forall k :: Acc(rnd, [], rows, k) == 0.0
  {
  }

  lemma LoadedCells(panel: Panel, c: nat, buf: Row)
    requires panel.Valid() && c < |panel.cols| && |buf| == |panel.pool|
    requires buf == PctRow(Masked(panel.pool, panel.cols[c]))
    ensures forall a :: 0 <= a < |panel.pool| && panel.pool[a] ==>
      buf[a].Some? && buf[a].value == Cell(PoolPct(panel), c, a)
  {
    assert buf == PoolPct(panel)[c];
    forall a: nat | a < |panel.pool| && panel.pool[a]
      ensures buf[a].Some? && buf[a].value == Cell(PoolPct(panel), c, a)
    {
      CellFinite(panel, c, a);
    }
  }

  method CsScore(rnd: Rounding, panel: Panel, ws: seq<Weight>, bufA: array<real>, bufC: array<Option<real>>)
    requires panel.Valid() && PlanValid(rnd, panel, ws)
    requires bufA.Length == bufC.Length == |panel.pool|
    modifies bufA, bufC
    ensures bufA[..] == ScoreRow(rnd, panel, ws)
  {
    hide PoolPct, Acc;
    Zero(bufA);
    var wsum := SumWeights(rnd, ws);
    AddAll(rnd, panel, ws, bufA, bufC);
    ghost var sums := bufA[..];
    var a := 0;
    while a < bufA.Length
      invariant 0 <= a <= bufA.Length
      invariant forall k :: 0 <= k < a ==> bufA[k] == if panel.pool[k] then Scaled(rnd, sums[k], wsum) else 0.0
      invariant forall k :: a <= k < bufA.Length ==> bufA[k] == sums[k]
    {
      bufA[a] := if panel.pool[a] then Scaled(rnd, bufA[a], wsum) else 0.0;
      a := a + 1;
    }
  }

  /** The rank column lists r: place i holds rank i + 1, everything else 0. */
  ghost predicate RankColumn(col: seq<nat>, r: seq<Cand>) {
    && (forall i :: 0 <= i < |r| ==> r[i].a < |col| && col[r[i].a] == i + 1)
    && (forall a :: 0 <= a < |col| && col[a] > 0 ==> col[a] <= |r| && r[col[a] - 1].a == a)
  }

  method CsRank(pool: seq<bool>, score: seq<real>, out: array<nat>)
    requires |pool| == |score| == out.Length
    requires DistinctAssets(Scored(pool, score))
    modifies out
    ensures RankColumn(out[..], Ranked(Scored(pool, score)))
  {
    hide Ranked, Members, Scored;
    var ranked := CollectPool(pool, score);
    ghost var items := ranked;
    ranked := Ranked(ranked); // the library sort by a total order
    ScoredAssets(pool, score);
    RankedAssets(items, |pool|);
    var a := 0;
    while a < out.Length
      invariant 0 <= a <= out.Length
      invariant forall k :: 0 <= k < a ==> out[k] == 0
    {
      out[a] := 0;
      a := a + 1;
    }
    var i := 0;
    while i < |ranked|
      invariant 0 <= i <= |ranked|
      invariant forall k :: 0 <= k < i ==> out[ranked[k].a] == k + 1
      invariant forall a :: 0 <= a < out.Length && out[a] > 0 ==> out[a] <= i && ranked[out[a] - 1].a == a
    {
      out[ranked[i].a] := i + 1;
      i := i + 1;
    }
  }

  lemma ScoredAssets(pool: seq<bool>, score: seq<real>)
    requires |pool| == |score|
    ensures forall k :: 0 <= k < |Scored(pool, score)| ==> Scored(pool, score)[k].a < |pool|
  {
  }

  lemma RankedAssets(items: seq<Cand>, n: nat)
    requires DistinctAssets(items) && forall k :: 0 <= k < |items| ==> items[k].a < n
    ensures forall i :: 0 <= i < |Ranked(items)| ==> Ranked(items)[i].a < n
    ensures forall i, j :: 0 <= i < j < |Ranked(items)| ==> Ranked(items)[i].a != Ranked(items)[j].a
  {
    RankedMultiset(items);
    DistinctByAsset(items, Ranked(items));
    OrderedDistinct(Ranked(items));
    forall i | 0 <= i < |Ranked(items)|
      ensures Ranked(items)[i].a < n
    {
      assert Ranked(items)[i] in items;
    }
  }

  method CollectPool(pool: seq<bool>, score: seq<real>) returns (items: seq<Cand>)
    requires |pool| == |score|
    ensures items == Scored(pool, score)
  {
    items := [];
    var a := 0;
    while a < |pool|
      invariant 0 <= a <= |pool|
      invariant items == Scored(pool[..a], score[..a])
    {
      ScoredNext(pool, score, a);
      if pool[a] {
        items := items + [Cand(score[a], a)];
      }
      a := a + 1;
    }
    assert pool[..a] == pool && score[..a] == score;
  }

  lemma ScoredNext(pool: seq<bool>, score: seq<real>, a: nat)
    requires |pool| == |score| && a < |pool|
    ensures Scored(pool[..a + 1], score[..a + 1]) ==
      if pool[a] then Scored(pool[..a], score[..a]) + [Cand(score[a], a)] else Scored(pool[..a], score[..a])
  {
    assert pool[..a + 1][..a] == pool[..a];
    var mem := Members(pool[..a]);
    assert Members(pool[..a + 1]) == mem + if pool[a] then [a] else [];
  }

  /** Counting the ranked assets of a rank column gives the length of the list. */
  method CountRanked(col: seq<nat>, ghost r: seq<Cand>) returns (n: nat)
    requires RankColumn(col, r)
    ensures n == |r|
  {
    n := 0;
    ghost var found: seq<nat> := [];
    var a := 0;
    while a < |col|
      invariant 0 <= a <= |col|
      invariant n == |found| && Distinct(found)
      invariant forall x: nat :: x in found <==> x < a && col[x] > 0
    {
      if col[a] > 0 {
        DistinctSnoc(found, a);
        n := n + 1;
        found := found + [a];
      }
      a := a + 1;
    }
    var s := CandAssets(r);
    RankColumnDistinct(col, r);
    forall x | x in found ensures x in Elems(s) { assert s[col[x] - 1] == x; }
    forall x | x in s ensures x in Elems(found) { var i :| 0 <= i < |s| && s[i] == x; assert r[i].a == x; }
    ElemsSize(s);
    ElemsSize(found);
    DistinctBound(found, Elems(s));
    DistinctBound(s, Elems(found));
  }

  lemma RankColumnDistinct(col: seq<nat>, r: seq<Cand>)
    requires RankColumn(col, r)
    ensures Distinct(CandAssets(r))
  {
    forall i, j | 0 <= i < j < |r|
      ensures CandAssets(r)[i] != CandAssets(r)[j]
    {
      assert col[r[i].a] == i + 1 && col[r[j].a] == j + 1;
    }
  }

  /** The backtest's rebuild: every ranked asset back into its place with its score. */
  method RebuildCands(score: seq<real>, col: seq<nat>, ghost r: seq<Cand>) returns (cands: seq<Cand>)
    requires |score| == |col| && RankColumn(col, r)
    requires forall i :: 0 <= i < |r| ==> r[i].score == score[r[i].a]
    ensures cands == r
  {
    var n := CountRanked(col, r);
    var buf := new Cand[n](_ => Cand(0.0, 0));
    var a := 0;
    while a < |col|
      invariant 0 <= a <= |col|
      invariant forall i :: 0 <= i < n && r[i].a < a ==> buf[i] == r[i]
    {
      if col[a] > 0 {
        buf[col[a] - 1] := Cand(score[a], a);
      }
      a := a + 1;
    }
    cands := buf[..];
  }

  /** The three steps together give the day's ranking. */
  method ReportCands(rnd: Rounding, panel: Panel, ws: seq<Weight>) returns (cands: seq<Cand>)
    requires panel.Valid() && PlanValid(rnd, panel, ws)
    ensures cands == DayRanking(rnd, panel, ws)
  {
    hide Ranked, Acc, PctRow;
    var n := |panel.pool|;
    var bufA, bufC, rank := new real[n](_ => 0.0), new Option<real>[n](_ => None), new nat[n](_ => 0);
    CsScore(rnd, panel, ws, bufA, bufC);
    var score := bufA[..];
    SameItems(rnd, panel, ws);
    CsRank(panel.pool, score, rank);
    ghost var items := Scored(panel.pool, score);
    RankedMultiset(items);
    forall i | 0 <= i < |Ranked(items)|
      ensures Ranked(items)[i].a < n && Ranked(items)[i].score == score[Ranked(items)[i].a]
    {
      assert Ranked(items)[i] in items;
    }
    cands := RebuildCands(score, rank[..], Ranked(items));
  }
}
