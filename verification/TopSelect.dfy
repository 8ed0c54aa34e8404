/**
 * The miner's bounded selection: pick a few more than needed by the raw sums,
 * divide, sort those, and keep the head. When the boundary check holds, the head
 * is exactly the head of the whole pool's ranking.
 */
module TopSelect {
  import opened Common
  import opened CrossSection
  import opened CrossSectionLaws
  import opened EngineSpec
  import opened EngineStructure
  import opened Ranking

  const TIE_MARGIN: nat := 16

  // ---- the bounded insertion ----

  function SlotFrom(list: seq<Cand>, p: nat, s: real): (r: nat)
    requires p <= |list|
    ensures r <= p
    ensures forall k :: r <= k < p ==> list[k].score < s
    ensures r > 0 ==> list[r - 1].score >= s
  {
    if p > 0 && list[p - 1].score < s then SlotFrom(list, p - 1, s) else p
  }

  function Insert(list: seq<Cand>, c: Cand): seq<Cand> {
    var p := SlotFrom(list, |list|, c.score);
    list[..p] + [c] + list[p..]
  }

  function Keep(list: seq<Cand>, cap: nat): (r: seq<Cand>)
    ensures |r| <= cap
  {
    if |list| > cap then list[..cap] else list
  }

  /** The best `cap` so far, earlier arrivals first among equals. */
  function TopK(items: seq<Cand>, cap: nat): (r: seq<Cand>)
    ensures |r| <= cap
  {
    if items == [] then [] else Keep(Insert(TopK(items[..|items| - 1], cap), items[|items| - 1]), cap)
  }

  ghost predicate NonIncreasing(s: seq<Cand>) {
    forall i, j :: 0 <= i < j < |s| ==> s[i].score >= s[j].score
  }

  /** `top` holds the best of `items` and `rest` what was left out. */
  ghost predicate Splits(items: seq<Cand>, top: seq<Cand>, rest: seq<Cand>) {
    && NonIncreasing(top)
    && multiset(top) + multiset(rest) == multiset(items)
    && forall r, t :: r in rest && t in top ==> r.score <= t.score
  }

  lemma InsertSorted(list: seq<Cand>, c: Cand)
    requires NonIncreasing(list)
    ensures NonIncreasing(Insert(list, c))
    ensures multiset(Insert(list, c)) == multiset(list) + multiset{c}
    ensures |Insert(list, c)| == |list| + 1
  {
    var p := SlotFrom(list, |list|, c.score);
    Spliced(list, p, c);
    SplicedMultiset(list, p, c);
    InsertedOrder(list, Insert(list, c), p);
  }

  lemma InsertedOrder(list: seq<Cand>, t: seq<Cand>, p: nat)
    requires NonIncreasing(list) && p <= |list| && |t| == |list| + 1
    requires forall k :: 0 <= k < p ==> t[k] == list[k]
    requires forall k :: p < k < |t| ==> t[k] == list[k - 1]
    requires p > 0 ==> list[p - 1].score >= t[p].score
    requires forall k :: p <= k < |list| ==> list[k].score < t[p].score
    ensures NonIncreasing(t)
  {
    forall i, j | 0 <= i < j < |t|
      ensures t[i].score >= t[j].score
    {
      if j == p {
        assert list[i].score >= list[p - 1].score;
      } else if j > p && i != p {
        assert list[if i < p then i else i - 1].score >= list[j - 1].score;
      }
    }
  }

  lemma {:induction false} TopKSplits(items: seq<Cand>, cap: nat) returns (rest: seq<Cand>)
    requires cap > 0
    ensures Splits(items, TopK(items, cap), rest)
    ensures |TopK(items, cap)| == if |items| <= cap then |items| else cap
  {
    if items == [] {
      rest := [];
    } else {
      var n := |items| - 1;
      rest := TopKSplits(items[..n], cap);
      assert items == items[..n] + [items[n]];
      rest := SplitsNext(items[..n], TopK(items[..n], cap), rest, items[n], cap);
    }
  }

  lemma SplitsNext(items: seq<Cand>, top: seq<Cand>, rest0: seq<Cand>, c: Cand, cap: nat) returns (rest: seq<Cand>)
    requires cap > 0 && Splits(items, top, rest0)
    requires |top| == if |items| <= cap then |items| else cap
    ensures Splits(items + [c], Keep(Insert(top, c), cap), rest)
    ensures |Keep(Insert(top, c), cap)| == if |items| < cap then |items| + 1 else cap
  {
    hide Insert;
    var all := Insert(top, c);
    InsertSorted(top, c);
    if |all| <= cap {
      rest := rest0;
      NothingOut(top, rest0, items, cap);
      assert multiset(items + [c]) == multiset(items) + multiset{c};
    } else {
      rest := rest0 + [all[cap]];
      DropLast(top, rest0, c, all, cap);
      DropCount(top, rest0, c, all, items, cap);
      SortedPrefix(all, cap);
      hide NonIncreasing;
    }
  }

  lemma SortedPrefix(s: seq<Cand>, n: nat)
    requires NonIncreasing(s) && n <= |s|
    ensures NonIncreasing(s[..n])
  {
  }

  lemma DropCount(top: seq<Cand>, rest: seq<Cand>, c: Cand, all: seq<Cand>, items: seq<Cand>, cap: nat)
    requires |all| == cap + 1 && multiset(all) == multiset(top) + multiset{c}
    requires multiset(top) + multiset(rest) == multiset(items)
    ensures multiset(all[..cap]) + multiset(rest + [all[cap]]) == multiset(items + [c])
  {
    assert all == all[..cap] + [all[cap]];
    assert multiset(all) == multiset(all[..cap]) + multiset{all[cap]};
    assert multiset(rest + [all[cap]]) == multiset(rest) + multiset{all[cap]};
    assert multiset(items + [c]) == multiset(items) + multiset{c};
    var l := multiset{all[cap]};
    assert multiset(all[..cap]) + (multiset(rest) + l) == multiset(all) + multiset(rest);
  }

  /** Nothing is left out before the list is full. */
  lemma NothingOut(top: seq<Cand>, rest: seq<Cand>, items: seq<Cand>, cap: nat)
    requires multiset(top) + multiset(rest) == multiset(items)
    requires |top| == if |items| <= cap then |items| else cap
    requires |top| < cap
    ensures rest == []
  {
    assert |multiset(top)| == |top| && |multiset(rest)| == |rest| && |multiset(items)| == |items|;
  }

  lemma DropLast(top: seq<Cand>, rest: seq<Cand>, c: Cand, all: seq<Cand>, cap: nat)
    requires all == Insert(top, c) && NonIncreasing(all) && |all| == cap + 1 && cap > 0
    requires NonIncreasing(top)
    requires forall r, t :: r in rest && t in top ==> r.score <= t.score
    ensures forall r, t :: r in rest + [all[cap]] && t in all[..cap] ==> r.score <= t.score
  {
    var p := SlotFrom(top, |top|, c.score);
    Spliced(top, p, c);
    var last := all[cap];
    forall r, t | r in rest + [last] && t in all[..cap]
      ensures r.score <= t.score
    {
      var k :| 0 <= k < cap && all[k] == t;
      assert t.score >= last.score;
      if r in rest {
        assert top[|top| - 1] in top;
        if k < p { assert t == top[k]; }
        else if k > p { assert t == top[k - 1]; }
        else { assert c.score > top[|top| - 1].score; }
      }
    }
  }

  /** Opens the place a score belongs at, moving the lower ones down. */
  method ShiftDown(sel: array<Cand>, ghost list: seq<Cand>, p0: nat, s: real) returns (p: nat)
    requires p0 < sel.Length && p0 <= |list| && forall k :: 0 <= k < p0 ==> sel[k] == list[k]
    modifies sel
    ensures p <= p0 && p == SlotFrom(list, p0, s)
    ensures forall k :: 0 <= k < p ==> sel[k] == list[k]
    ensures forall k :: p < k <= p0 ==> sel[k] == list[k - 1]
  {
    hide SlotFrom;
    p := p0;
    while p > 0 && sel[p - 1].score < s
      invariant 0 <= p <= p0 && SlotFrom(list, p0, s) == SlotFrom(list, p, s)
      invariant forall k :: 0 <= k < p ==> sel[k] == list[k]
      invariant forall k :: p < k <= p0 ==> sel[k] == list[k - 1]
    {
      SlotStep(list, p, s);
      sel[p] := sel[p - 1];
      p := p - 1;
    }
    if p > 0 { SlotStep(list, p, s); } else { SlotZero(list, s); }
  }

  lemma SlotZero(list: seq<Cand>, s: real)
    ensures SlotFrom(list, 0, s) == 0
  {
  }

  /** One candidate into the first ns places of `sel`, shifting in place and never past `cap`. */
  method InsertAt(sel: array<Cand>, ns: nat, cap: nat, c: Cand) returns (ns': nat)
    requires 0 < cap <= sel.Length && ns <= cap
    modifies sel
    ensures ns' <= cap && sel[..ns'] == Keep(Insert(old(sel[..ns]), c), cap)
  {
    hide Insert, Keep, SlotFrom;
    ghost var list := sel[..ns];
    if ns == cap && !(c.score > sel[cap - 1].score) {
      NotInserted(list, c, cap);
      return ns;
    }
    var p := if ns < cap then ns else cap - 1;
    ns' := if ns < cap then ns + 1 else ns;
    if p < ns { SlotStep(list, ns, c.score); }
    p := ShiftDown(sel, list, p, c.score);
    sel[p] := c;
    InsertShape(list, c, p, sel[..ns'], cap);
  }

  lemma SlotStep(list: seq<Cand>, p: nat, s: real)
    requires 0 < p <= |list|
    ensures SlotFrom(list, p, s) == if list[p - 1].score < s then SlotFrom(list, p - 1, s) else p
  {
  }

  lemma InsertShape(list: seq<Cand>, c: Cand, p: nat, t: seq<Cand>, cap: nat)
    requires p <= |list| <= cap && p == SlotFrom(list, |list|, c.score)
    requires |t| == (if |list| < cap then |list| + 1 else |list|) && p < |t| && t[p] == c
    requires forall k :: 0 <= k < p ==> t[k] == list[k]
    requires forall k :: p < k < |t| ==> t[k] == list[k - 1]
    ensures t == Keep(Insert(list, c), cap)
  {
    hide SlotFrom;
    SplicePrefix(list, p, c, t);
  }

  lemma SplicePrefix(list: seq<Cand>, p: nat, c: Cand, t: seq<Cand>)
    requires p <= |list| && p < |t| <= |list| + 1 && t[p] == c
    requires forall k :: 0 <= k < p ==> t[k] == list[k]
    requires forall k :: p < k < |t| ==> t[k] == list[k - 1]
    ensures t == (list[..p] + [c] + list[p..])[..|t|]
    ensures |t| == |list| + 1 ==> t == list[..p] + [c] + list[p..]
  {
  }

  lemma NotInserted(list: seq<Cand>, c: Cand, cap: nat)
    requires |list| == cap > 0 && c.score <= list[cap - 1].score
    ensures Keep(Insert(list, c), cap) == list
  {
    assert SlotFrom(list, cap, c.score) == cap;
    assert Insert(list, c)[..cap] == list;
  }

  /** The members with their sums. */
  function Pairs(acc: seq<real>, mem: seq<nat>): (r: seq<Cand>)
    requires |mem| <= |acc|
  {
    seq(|mem|, k requires 0 <= k < |mem| => Cand(acc[k], mem[k]))
  }

  method PickTop(acc: array<real>, mem: seq<nat>, cap: nat, sel: array<Cand>) returns (ns: nat)
    requires 0 < cap <= sel.Length && |mem| <= acc.Length
    modifies sel
    ensures ns <= cap && sel[..ns] == TopK(Pairs(acc[..], mem), cap)
  {
    ghost var items := Pairs(acc[..], mem);
    ns := 0;
    var j := 0;
    while j < |mem|
      invariant 0 <= j <= |mem| && ns <= cap
      invariant sel[..ns] == TopK(items[..j], cap)
    {
      assert items[..j + 1][..j] == items[..j];
      ns := InsertAt(sel, ns, cap, Cand(acc[j], mem[j]));
      j := j + 1;
    }
    assert items[..j] == items;
  }

  // ---- division, order and the boundary ----

  lemma {:induction false} NormPermuted(rnd: Rounding, wsum: real, s: seq<Cand>, t: seq<Cand>)
    requires wsum > 0.0 && multiset(s) == multiset(t)
    ensures multiset(NormAll(rnd, wsum, s)) == multiset(NormAll(rnd, wsum, t))
    decreases |s|
  {
    Sizes(s, t);
    if s != [] {
      var n := |s| - 1;
      assert s[n] in s && s[n] in t;
      var i :| 0 <= i < |t| && t[i] == s[n];
      var u := t[..i] + t[i + 1..];
      Removed(t, i);
      Removed(s, n);
      assert s[..n] + s[n + 1..] == s[..n];
      NormPermuted(rnd, wsum, s[..n], u);
      NormSplice(rnd, wsum, t, i);
      NormSplice(rnd, wsum, s, n);
    }
  }

  lemma NormSplice(rnd: Rounding, wsum: real, t: seq<Cand>, i: nat)
    requires wsum > 0.0 && i < |t|
    ensures multiset(NormAll(rnd, wsum, t)) ==
            multiset(NormAll(rnd, wsum, t[..i] + t[i + 1..])) + multiset{Norm(rnd, wsum, t[i])}
  {
    var v, u := NormAll(rnd, wsum, t), NormAll(rnd, wsum, t[..i] + t[i + 1..]);
    Removed(v, i);
    assert u == v[..i] + v[i + 1..];
  }

  lemma ScaledWeak(rnd: Rounding, wsum: real, x: real, y: real)
    requires Monotone(rnd) && wsum > 0.0 && x <= y
    ensures Scaled(rnd, x, wsum) <= Scaled(rnd, y, wsum)
  {
    assert y / wsum - x / wsum == (y - x) / wsum;
    assert (y - x) / wsum >= 0.0;
  }

  /** The code's check on what was picked: nothing but the head, or its last is strictly above the last picked. */
  predicate Checked(sorted: seq<Cand>, nKeep: nat)
    requires 0 < nKeep <= |sorted|
  {
    || |sorted| == nKeep
    || sorted[nKeep - 1].score > sorted[|sorted| - 1].score
  }

  /** An ordered head followed by anything strictly below it is the head of the ranking. */
  lemma HeadOfRanking(head: seq<Cand>, tail: seq<Cand>, items: seq<Cand>)
    requires Ordered(head) && head != [] && DistinctAssets(items)
    requires multiset(head) + multiset(tail) == multiset(items)
    requires forall t :: t in tail ==> Before(head[|head| - 1], t)
    ensures head <= Ranked(items)
  {
    assert multiset(head + tail) == multiset(items);
    DistinctByAsset(items, head + tail);
    TailDistinct(head, tail);
    RankedOrdered(tail);
    RankedMultiset(tail);
    var full := head + Ranked(tail);
    forall i, j | 0 <= i < j < |full|
      ensures Before(full[i], full[j])
    {
      if i < |head| <= j {
        assert full[j] in Ranked(tail);
        assert i == |head| - 1 || Before(head[i], head[|head| - 1]);
      }
    }
    OrderedIsRanked(full, items);
  }

  lemma TailDistinct(head: seq<Cand>, tail: seq<Cand>)
    requires DistinctAssets(head + tail)
    ensures DistinctAssets(tail)
  {
    var h := |head|;
    assert forall i :: 0 <= i < |tail| ==> CandAssets(head + tail)[h + i] == CandAssets(tail)[i];
    forall i, j | 0 <= i < j < |tail|
      ensures CandAssets(tail)[i] != CandAssets(tail)[j]
    {
      assert CandAssets(head + tail)[h + i] != CandAssets(head + tail)[h + j];
    }
  }

  /**
   * Division may merge distinct sums, so the members left out could tie with those
   * picked. When the boundary check holds they cannot reach the head.
   */
  lemma BoundarySuffices(rnd: Rounding, wsum: real, items: seq<Cand>, top: seq<Cand>, rest: seq<Cand>, nKeep: nat)
    requires Monotone(rnd) && wsum > 0.0 && DistinctAssets(items)
    requires Splits(items, top, rest) && 0 < nKeep <= |top|
    requires |Ranked(NormAll(rnd, wsum, top))| == |top|
    requires |top| == |items| || Checked(Ranked(NormAll(rnd, wsum, top)), nKeep)
    requires |top| == nKeep ==> |top| == |items|
    ensures Ranked(NormAll(rnd, wsum, top))[..nKeep] <= Ranked(NormAll(rnd, wsum, items))
  {
    hide *;
    var sorted, left := Ranked(NormAll(rnd, wsum, top)), NormAll(rnd, wsum, rest);
    NormDistinct(rnd, wsum, items);
    SplitsFacts(items, top, rest);
    NormSplits(rnd, wsum, items, top, rest, nKeep);
    TopOrdered(rnd, wsum, items, top, rest);
    LeftAllBelow(rnd, wsum, items, top, rest);
    HeadAbove(sorted, left, nKeep, |top| == |items|);
    HeadOfRanking(sorted[..nKeep], sorted[nKeep..] + left, NormAll(rnd, wsum, items));
  }

  lemma SplitsFacts(items: seq<Cand>, top: seq<Cand>, rest: seq<Cand>)
    requires Splits(items, top, rest)
    ensures multiset(top) + multiset(rest) == multiset(items) && |top| + |rest| == |items|
  {
    Sizes(top + rest, items);
  }

  lemma LeftAllBelow(rnd: Rounding, wsum: real, items: seq<Cand>, top: seq<Cand>, rest: seq<Cand>)
    requires Monotone(rnd) && wsum > 0.0 && Splits(items, top, rest) && top != [] && |Ranked(NormAll(rnd, wsum, top))| == |top|
    ensures forall t :: t in NormAll(rnd, wsum, rest) ==>
      |top| < |items| && t.score <= Ranked(NormAll(rnd, wsum, top))[|top| - 1].score
  {
    hide Ranked, Splits, Monotone;
    SplitsFacts(items, top, rest);
    forall t | t in NormAll(rnd, wsum, rest)
      ensures |top| < |items| && t.score <= Ranked(NormAll(rnd, wsum, top))[|top| - 1].score
    {
      LeftBelow(rnd, wsum, items, top, rest, t);
    }
  }

  /** The last of the head comes before whatever else was picked, and before what was left out. */
  lemma HeadAbove(sorted: seq<Cand>, left: seq<Cand>, nKeep: nat, whole: bool)
    requires Ordered(sorted) && 0 < nKeep <= |sorted| && (whole || (|sorted| > nKeep && Checked(sorted, nKeep)))
    requires forall t :: t in left ==> !whole && t.score <= sorted[|sorted| - 1].score
    ensures Ordered(sorted[..nKeep]) && forall t :: t in sorted[nKeep..] + left ==> Before(sorted[..nKeep][nKeep - 1], t)
  {
    forall t | t in sorted[nKeep..]
      ensures Before(sorted[nKeep - 1], t)
    {
      var k :| 0 <= k < |sorted[nKeep..]| && sorted[nKeep..][k] == t;
      assert sorted[nKeep + k] == t;
    }
  }

  lemma NormSplits(rnd: Rounding, wsum: real, items: seq<Cand>, top: seq<Cand>, rest: seq<Cand>, nKeep: nat)
    requires wsum > 0.0 && multiset(top) + multiset(rest) == multiset(items)
    requires nKeep <= |top| && |Ranked(NormAll(rnd, wsum, top))| == |top|
    ensures var sorted := Ranked(NormAll(rnd, wsum, top));
      multiset(sorted[..nKeep]) + multiset(sorted[nKeep..] + NormAll(rnd, wsum, rest)) == multiset(NormAll(rnd, wsum, items))
  {
    var a, b := NormAll(rnd, wsum, top), NormAll(rnd, wsum, rest);
    RankedMultiset(a);
    assert multiset(top + rest) == multiset(items);
    NormPermuted(rnd, wsum, top + rest, items);
    NormJoin(rnd, wsum, top, rest);
    hide NormAll, Ranked;
    CutJoin(Ranked(a), b, nKeep);
  }

  lemma NormJoin(rnd: Rounding, wsum: real, s: seq<Cand>, t: seq<Cand>)
    requires wsum > 0.0
    ensures NormAll(rnd, wsum, s + t) == NormAll(rnd, wsum, s) + NormAll(rnd, wsum, t)
  {
  }

  lemma CutJoin(s: seq<Cand>, t: seq<Cand>, k: nat)
    requires k <= |s|
    ensures multiset(s[..k]) + multiset(s[k..] + t) == multiset(s) + multiset(t)
  {
    assert s == s[..k] + s[k..];
  }

  lemma NormDistinct(rnd: Rounding, wsum: real, items: seq<Cand>)
    requires wsum > 0.0 && DistinctAssets(items)
    ensures DistinctAssets(NormAll(rnd, wsum, items))
  {
    assert CandAssets(NormAll(rnd, wsum, items)) == CandAssets(items);
  }

  lemma TopOrdered(rnd: Rounding, wsum: real, items: seq<Cand>, top: seq<Cand>, rest: seq<Cand>)
    requires wsum > 0.0 && DistinctAssets(items) && multiset(top) + multiset(rest) == multiset(items)
    ensures Ordered(Ranked(NormAll(rnd, wsum, top)))
  {
    assert multiset(rest + top) == multiset(items);
    DistinctByAsset(items, rest + top);
    TailDistinct(rest, top);
    NormDistinct(rnd, wsum, top);
    RankedOrdered(NormAll(rnd, wsum, top));
  }

  /** A member left out scores no more than the lowest of those picked. */
  lemma LeftBelow(rnd: Rounding, wsum: real, items: seq<Cand>, top: seq<Cand>, rest: seq<Cand>, t: Cand)
    requires Monotone(rnd) && wsum > 0.0 && Splits(items, top, rest) && top != []
    requires t in NormAll(rnd, wsum, rest)
    ensures var sorted := Ranked(NormAll(rnd, wsum, top));
      sorted != [] && t.score <= sorted[|sorted| - 1].score
  {
    var sorted := Ranked(NormAll(rnd, wsum, top));
    RankedMultiset(NormAll(rnd, wsum, top));
    var last := sorted[|sorted| - 1];
    assert last in NormAll(rnd, wsum, top);
    var i :| 0 <= i < |top| && NormAll(rnd, wsum, top)[i] == last;
    var j :| 0 <= j < |rest| && NormAll(rnd, wsum, rest)[j] == t;
    assert rest[j] in rest && top[i] in top;
    ScaledWeak(rnd, wsum, rest[j].score, top[i].score);
  }

  // ---- the selection ----

  /** One factor's pass over the row. */
  method AddFactor(rnd: Rounding, blk: seq<Row>, cnt: nat, ws: seq<Weight>, q: nat, acc: array<real>)
    requires cnt <= acc.Length && q < |ws| && forall k :: 0 <= k < cnt ==> acc[k] == Acc(rnd, ws[..q], blk, k)
    modifies acc
    ensures forall k :: 0 <= k < cnt ==> acc[k] == Acc(rnd, ws[..q + 1], blk, k)
  {
    hide Acc, Term;
    var j := 0;
    while j < cnt
      invariant 0 <= j <= cnt
      invariant forall k :: 0 <= k < j ==> acc[k] == Acc(rnd, ws[..q + 1], blk, k)
      invariant forall k :: j <= k < cnt ==> acc[k] == Acc(rnd, ws[..q], blk, k)
    {
      AccNext(rnd, ws, blk, j, q);
      acc[j] := rnd(acc[j] + rnd(Term(ws[q], blk, j)));
      j := j + 1;
    }
  }

  method Accumulate(rnd: Rounding, blk: seq<Row>, cnt: nat, ws: seq<Weight>, acc: array<real>)
    requires cnt <= acc.Length
    modifies acc
    ensures forall j :: 0 <= j < cnt ==> acc[j] == Acc(rnd, ws, blk, j)
  {
    var j := 0;
    while j < cnt
      invariant 0 <= j <= cnt
      invariant forall k :: 0 <= k < j ==> acc[k] == 0.0
    {
      acc[j] := 0.0;
      j := j + 1;
    }
    assert forall k :: 0 <= k < cnt ==> acc[k] == Acc(rnd, ws[..0], blk, k);
    hide Acc;
    var q := 0;
    while q < |ws|
      invariant 0 <= q <= |ws|
      invariant forall k :: 0 <= k < cnt ==> acc[k] == Acc(rnd, ws[..q], blk, k)
    {
      AddFactor(rnd, blk, cnt, ws, q, acc);
      q := q + 1;
    }
    assert ws[..q] == ws;
  }

  method DivideAndSort(rnd: Rounding, wsum: real, sel: array<Cand>, ns: nat)
    requires ns <= sel.Length && wsum > 0.0
    modifies sel
    ensures sel[..ns] == Ranked(NormAll(rnd, wsum, old(sel[..ns])))
  {
    hide Ranked, Norm;
    ghost var top := sel[..ns];
    var j := 0;
    while j < ns
      invariant 0 <= j <= ns
      invariant forall k :: 0 <= k < j ==> sel[k] == Norm(rnd, wsum, top[k])
      invariant forall k :: j <= k < ns ==> sel[k] == top[k]
    {
      sel[j] := Norm(rnd, wsum, sel[j]);
      j := j + 1;
    }
    assert sel[..ns] == NormAll(rnd, wsum, top);
    var r := Ranked(sel[..ns]); // the library sort by a total order
    RankedMultiset(sel[..ns]);
    j := 0;
    while j < ns
      invariant 0 <= j <= ns
      invariant forall k :: 0 <= k < j ==> sel[k] == r[k]
    {
      sel[j] := r[j];
      j := j + 1;
    }
    assert sel[..ns] == r;
  }

  /** How many are picked: the head and a margin for ties, as far as there are members. */
  function PickSize(cnt: nat, nKeep: nat): nat {
    if cnt <= nKeep + TIE_MARGIN then cnt else nKeep + TIE_MARGIN
  }

  /** What is picked, divided and in order. */
  ghost function Picked(rnd: Rounding, panel: Panel, ws: seq<Weight>, nKeep: nat): (r: seq<Cand>)
    requires panel.Valid() && PlanValid(rnd, panel, ws) && nKeep > 0
    ensures |r| == PickSize(|Members(panel.pool)|, nKeep)
  {
    var items := RawItems(rnd, panel, ws);
    var top := TopK(items, PickSize(|items|, nKeep));
    PickedAll(items, nKeep);
    RankedMultiset(NormAll(rnd, WSum(rnd, ws), top));
    Ranked(NormAll(rnd, WSum(rnd, ws), top))
  }

  lemma PickedAll(items: seq<Cand>, nKeep: nat)
    requires nKeep > 0
    ensures |TopK(items, PickSize(|items|, nKeep))| == PickSize(|items|, nKeep)
  {
    if items != [] {
      var rest := TopKSplits(items, PickSize(|items|, nKeep));
    }
  }

  /**
   * Whether a day may pass, by the ranking alone: its last place kept scores strictly
   * above the last place that head and margin reach, or head and margin are all.
   */
  ghost predicate Passes(rnd: Rounding, panel: Panel, ws: seq<Weight>, nKeep: nat)
    requires panel.Valid() && PlanValid(rnd, panel, ws) && 0 < nKeep <= |Members(panel.pool)|
  {
    var n, r := PickSize(|Members(panel.pool)|, nKeep), DayRanking(rnd, panel, ws);
    |r| == |Members(panel.pool)| && (n == nKeep || r[nKeep - 1].score > r[n - 1].score)
  }

  // ---- the scores of what is picked ----

  /** What is equal to the last of a falling list is followed by its equals alone; without it the list falls on. */
  lemma WithoutOne(t: seq<Cand>, j: nat)
    requires NonIncreasing(t) && j < |t| && t[|t| - 1].score >= t[j].score
    ensures var u := t[..j] + t[j + 1..];
      NonIncreasing(u) && |u| == |t| - 1 && ScoresOf(u, t) && t[|t| - 1].score == t[j].score
  {
    var u := t[..j] + t[j + 1..];
    assert forall i :: 0 <= i < |u| ==> u[i] == if i < j then t[i] else t[i + 1];
    assert forall i :: j <= i < |t| ==> t[j].score >= t[i].score >= t[|t| - 1].score;
  }

  /** Where the other list holds the last of this one: its own last scores no less. */
  lemma LastElsewhere(s: seq<Cand>, t: seq<Cand>) returns (j: nat)
    requires NonIncreasing(s) && multiset(s) == multiset(t) && s != []
    ensures |s| == |t| && j < |t| && t[j] == s[|s| - 1] && t[|t| - 1].score >= s[|s| - 1].score
  {
    Sizes(s, t);
    assert s[|s| - 1] in t && t[|t| - 1] in s;
    j :| 0 <= j < |t| && t[j] == s[|s| - 1];
    var k :| 0 <= k < |s| && s[k] == t[|t| - 1];
  }

  ghost predicate ScoresOf(s: seq<Cand>, t: seq<Cand>) {
    |s| <= |t| && forall i :: 0 <= i < |s| ==> s[i].score == t[i].score
  }

  lemma ScoresNext(s: seq<Cand>, t: seq<Cand>, u: seq<Cand>)
    requires |s| == |t| > 0 && ScoresOf(s[..|s| - 1], u) && ScoresOf(u, t) && s[|s| - 1].score == t[|t| - 1].score
    ensures ScoresOf(s, t)
  {
    forall i | 0 <= i < |s|
      ensures s[i].score == t[i].score
    {
      if i < |s| - 1 { assert s[..|s| - 1][i] == s[i]; }
    }
  }

  lemma MultisetLess(s: seq<Cand>, t: seq<Cand>, j: nat)
    requires s != [] && j < |t| && multiset(s) == multiset(t) && t[j] == s[|s| - 1]
    ensures multiset(s[..|s| - 1]) == multiset(t[..j] + t[j + 1..])
  {
    Removed(t, j);
    assert s == s[..|s| - 1] + [s[|s| - 1]];
  }

  /** Two orderings of one collection by falling score have the same scores. */
  lemma {:induction false} SameScores(s: seq<Cand>, t: seq<Cand>)
    requires NonIncreasing(s) && NonIncreasing(t) && multiset(s) == multiset(t)
    ensures |s| == |t| && ScoresOf(s, t)
    decreases |s|
  {
    Sizes(s, t);
    if s != [] {
      var j := LastElsewhere(s, t);
      SortedPrefix(s, |s| - 1);
      WithoutOne(t, j);
      MultisetLess(s, t, j);
      hide NonIncreasing, ScoresOf;
      var u := t[..j] + t[j + 1..];
      SameScores(s[..|s| - 1], u);
      ScoresNext(s, t, u);
    }
  }

  lemma OrderedDown(s: seq<Cand>)
    requires Ordered(s)
    ensures NonIncreasing(s)
  {
  }

  lemma JoinDown(a: seq<Cand>, b: seq<Cand>)
    requires NonIncreasing(a) && NonIncreasing(b) && (a == [] ==> b == [])
    requires a != [] ==> forall t :: t in b ==> t.score <= a[|a| - 1].score
    ensures NonIncreasing(a + b)
  {
  }

  lemma NormParts(rnd: Rounding, wsum: real, items: seq<Cand>, top: seq<Cand>, rest: seq<Cand>)
    requires wsum > 0.0 && multiset(top) + multiset(rest) == multiset(items)
    ensures var p, q, r := Ranked(NormAll(rnd, wsum, top)), Ranked(NormAll(rnd, wsum, rest)), Ranked(NormAll(rnd, wsum, items));
      multiset(p + q) == multiset(r) && |p| == |top| && |r| == |items|
  {
    RankedMultiset(NormAll(rnd, wsum, items));
    RankedMultiset(NormAll(rnd, wsum, top));
    RankedMultiset(NormAll(rnd, wsum, rest));
    assert multiset(top + rest) == multiset(items);
    NormPermuted(rnd, wsum, top + rest, items);
    NormJoin(rnd, wsum, top, rest);
  }

  lemma SplitOrdered(rnd: Rounding, wsum: real, items: seq<Cand>, top: seq<Cand>, rest: seq<Cand>)
    requires wsum > 0.0 && DistinctAssets(items) && multiset(top) + multiset(rest) == multiset(items)
    ensures NonIncreasing(Ranked(NormAll(rnd, wsum, top))) && NonIncreasing(Ranked(NormAll(rnd, wsum, rest)))
    ensures NonIncreasing(Ranked(NormAll(rnd, wsum, items)))
  {
    assert multiset(rest) + multiset(top) == multiset(items);
    TopOrdered(rnd, wsum, items, top, rest);
    TopOrdered(rnd, wsum, items, rest, top);
    NormDistinct(rnd, wsum, items);
    RankedOrdered(NormAll(rnd, wsum, items));
    hide Ranked, NormAll, Ordered, NonIncreasing;
    OrderedDown(Ranked(NormAll(rnd, wsum, top)));
    OrderedDown(Ranked(NormAll(rnd, wsum, rest)));
    OrderedDown(Ranked(NormAll(rnd, wsum, items)));
  }

  lemma RestBelow(rnd: Rounding, wsum: real, items: seq<Cand>, top: seq<Cand>, rest: seq<Cand>)
    requires Monotone(rnd) && wsum > 0.0 && Splits(items, top, rest) && top != []
    ensures var p, q := Ranked(NormAll(rnd, wsum, top)), Ranked(NormAll(rnd, wsum, rest));
      p != [] && forall t :: t in q ==> t.score <= p[|p| - 1].score
  {
    RankedMultiset(NormAll(rnd, wsum, top));
    RankedMultiset(NormAll(rnd, wsum, rest));
    hide Ranked, NormAll, Splits, Monotone;
    forall t | t in NormAll(rnd, wsum, rest)
      ensures t.score <= Ranked(NormAll(rnd, wsum, top))[|top| - 1].score
    {
      LeftBelow(rnd, wsum, items, top, rest, t);
    }
  }

  lemma JoinScores(p: seq<Cand>, q: seq<Cand>, r: seq<Cand>)
    requires NonIncreasing(p) && NonIncreasing(q) && NonIncreasing(r) && (p == [] ==> q == [])
    requires multiset(p + q) == multiset(r) && (p != [] ==> forall t :: t in q ==> t.score <= p[|p| - 1].score)
    ensures ScoresOf(p, r)
  {
    JoinDown(p, q);
    hide NonIncreasing;
    SameScores(p + q, r);
    assert forall i :: 0 <= i < |p| ==> (p + q)[i] == p[i];
  }

  lemma SplitScores(rnd: Rounding, wsum: real, items: seq<Cand>, top: seq<Cand>, rest: seq<Cand>)
    requires Monotone(rnd) && wsum > 0.0 && DistinctAssets(items) && Splits(items, top, rest) && (top == [] ==> rest == [])
    ensures |Ranked(NormAll(rnd, wsum, top))| == |top|
    ensures ScoresOf(Ranked(NormAll(rnd, wsum, top)), Ranked(NormAll(rnd, wsum, items)))
  {
    assert multiset(top) + multiset(rest) == multiset(items);
    RankedMultiset(NormAll(rnd, wsum, rest));
    hide Ranked, Splits, NonIncreasing, Monotone, DistinctAssets, ScoresOf;
    SplitOrdered(rnd, wsum, items, top, rest);
    NormParts(rnd, wsum, items, top, rest);
    if top != [] {
      RestBelow(rnd, wsum, items, top, rest);
    }
    JoinScores(Ranked(NormAll(rnd, wsum, top)), Ranked(NormAll(rnd, wsum, rest)), Ranked(NormAll(rnd, wsum, items)));
  }

  /** Passing the check or not, the places picked have the scores of the first places of the ranking. */
  lemma PickedScores(rnd: Rounding, panel: Panel, ws: seq<Weight>, nKeep: nat)
    requires panel.Valid() && PlanValid(rnd, panel, ws) && Monotone(rnd) && nKeep > 0
    ensures var p, r := Picked(rnd, panel, ws, nKeep), DayRanking(rnd, panel, ws);
      && |p| == PickSize(|Members(panel.pool)|, nKeep) == MinInt(|Members(panel.pool)|, nKeep + TIE_MARGIN)
      && |p| <= |r| == |Members(panel.pool)| && ScoresOf(p, r)
  {
    var items := RawItems(rnd, panel, ws);
    var n := PickSize(|items|, nKeep);
    SameItems(rnd, panel, ws);
    assert CandAssets(items) == CandAssets(NormAll(rnd, WSum(rnd, ws), items));
    RankedMultiset(NormAll(rnd, WSum(rnd, ws), items));
    hide TopK, Ranked, NormAll, Splits, Acc, Block;
    if items == [] {
      PickedAll(items, nKeep);
      var rest := TopKSplits(items, nKeep);
    } else {
      var rest := TopKSplits(items, n);
      SplitScores(rnd, WSum(rnd, ws), items, TopK(items, n), rest);
    }
  }

  /** So the code's check, made on what was picked, passes exactly the days the ranking says. */
  lemma PassesIff(rnd: Rounding, panel: Panel, ws: seq<Weight>, nKeep: nat)
    requires panel.Valid() && PlanValid(rnd, panel, ws) && Monotone(rnd)
    requires 0 < nKeep <= |Members(panel.pool)|
    ensures Checked(Picked(rnd, panel, ws, nKeep), nKeep) <==> Passes(rnd, panel, ws, nKeep)
  {
    hide Picked, DayRanking, Members;
    PickedScores(rnd, panel, ws, nKeep);
  }

  /**
   * The head of a day's ranking, from the compacted block. `ok` is the check the
   * code asserts; whenever it holds, the first nKeep places are the ranking's.
   */
  method SelectTop(rnd: Rounding, ghost panel: Panel, blk: seq<Row>, mem: seq<nat>, ws: seq<Weight>, wsum: real,
                   nKeep: nat, acc: array<real>, sel: array<Cand>) returns (ok: bool)
    requires panel.Valid() && PlanValid(rnd, panel, ws) && Monotone(rnd)
    requires mem == Members(panel.pool) && blk == Block(panel) && wsum == WSum(rnd, ws)
    requires 0 < nKeep <= |mem| <= acc.Length && nKeep + TIE_MARGIN <= sel.Length
    modifies acc, sel
    ensures sel[..PickSize(|mem|, nKeep)] == Picked(rnd, panel, ws, nKeep)
    ensures ok <==> Passes(rnd, panel, ws, nKeep)
    ensures ok ==> sel[..nKeep] <= DayRanking(rnd, panel, ws)
  {
    hide TopK, Ranked, Splits, DayRanking, Acc, Block;
    var nSel := PickSize(|mem|, nKeep);
    Accumulate(rnd, blk, |mem|, ws, acc);
    ghost var items := RawItems(rnd, panel, ws);
    assert Pairs(acc[..], mem) == items;
    var ns := PickTop(acc, mem, nSel, sel);
    ghost var top := sel[..ns];
    ghost var rest := TopKSplits(items, nSel);
    assert ns == nSel;
    DivideAndSort(rnd, wsum, sel, ns);
    ok := ns < nSel || nSel == nKeep || sel[nKeep - 1].score > sel[nSel - 1].score;
    PassesIff(rnd, panel, ws, nKeep);
    if ok {
      assert sel[..ns][..nKeep] == sel[..nKeep];
      HeadIsRanking(rnd, panel, ws, top, rest, nKeep);
    }
  }

  lemma HeadIsRanking(rnd: Rounding, panel: Panel, ws: seq<Weight>, top: seq<Cand>, rest: seq<Cand>, nKeep: nat)
    requires panel.Valid() && PlanValid(rnd, panel, ws) && Monotone(rnd)
    requires var items := RawItems(rnd, panel, ws);
      && Splits(items, top, rest) && 0 < nKeep <= |top|
      && |top| == if |items| <= nKeep + TIE_MARGIN then |items| else nKeep + TIE_MARGIN
    requires |Ranked(NormAll(rnd, WSum(rnd, ws), top))| == |top|
    requires Checked(Ranked(NormAll(rnd, WSum(rnd, ws), top)), nKeep)
    ensures Ranked(NormAll(rnd, WSum(rnd, ws), top))[..nKeep] <= DayRanking(rnd, panel, ws)
  {
    var items := RawItems(rnd, panel, ws);
    SameItems(rnd, panel, ws);
    assert CandAssets(items) == CandAssets(NormAll(rnd, WSum(rnd, ws), items));
    BoundarySuffices(rnd, WSum(rnd, ws), items, top, rest, nKeep);
  }

  lemma SameRanking(s: seq<Cand>, t: seq<Cand>)
    requires multiset(s) == multiset(t) && DistinctAssets(t)
    ensures Ranked(s) == Ranked(t)
  {
    hide Ranked;
    DistinctByAsset(t, s);
    RankedOrdered(s);
    RankedMultiset(s);
    OrderedIsRanked(Ranked(s), t);
  }

  /** When every member fits into the head and the margin, the selection is the whole ranking. */
  lemma NothingLeftOut(rnd: Rounding, panel: Panel, ws: seq<Weight>, nKeep: nat)
    requires panel.Valid() && PlanValid(rnd, panel, ws)
    requires 0 < nKeep <= |Members(panel.pool)| <= nKeep + TIE_MARGIN
    ensures Picked(rnd, panel, ws, nKeep) == DayRanking(rnd, panel, ws)
  {
    var items := RawItems(rnd, panel, ws);
    var top := TopK(items, |items|);
    var rest := TopKSplits(items, |items|);
    assert |multiset(top)| == |top| && |multiset(rest)| == |rest| && |multiset(items)| == |items|;
    assert rest == [];
    SameItems(rnd, panel, ws);
    NormPermuted(rnd, WSum(rnd, ws), top, items);
    SameRanking(NormAll(rnd, WSum(rnd, ws), top), NormAll(rnd, WSum(rnd, ws), items));
  }

  /** Every column gives all members the same value. */
  ghost predicate Alike(panel: Panel)
    requires panel.Valid()
  {
    forall c, a, b :: 0 <= c < |panel.cols| && 0 <= a < |panel.pool| && 0 <= b < |panel.pool| && panel.pool[a] && panel.pool[b] ==>
      panel.cols[c][a] == panel.cols[c][b]
  }

  lemma AlikeCell(panel: Panel, c: nat, a: nat, b: nat)
    requires panel.Valid() && Alike(panel) && c < |panel.cols|
    requires a < |panel.pool| && b < |panel.pool| && panel.pool[a] && panel.pool[b]
    ensures Cell(PoolPct(panel), c, a) == Cell(PoolPct(panel), c, b)
  {
    hide Pct;
    assert panel.cols[c][a] == panel.cols[c][b];
    assert PoolPct(panel)[c] == PctRow(Masked(panel.pool, panel.cols[c]));
  }

  lemma AlikeAcc(rnd: Rounding, panel: Panel, ws: seq<Weight>, j: nat, k: nat)
    requires panel.Valid() && PlanValid(rnd, panel, ws) && Alike(panel)
    requires j < |Members(panel.pool)| && k < |Members(panel.pool)|
    ensures Acc(rnd, ws, Block(panel), j) == Acc(rnd, ws, Block(panel), k)
  {
    var a, b := Members(panel.pool)[j], Members(panel.pool)[k];
    AccCompact(rnd, panel, ws, j);
    AccCompact(rnd, panel, ws, k);
    hide Cell, Block, Members;
    forall q | 0 <= q < |ws|
      ensures Cell(PoolPct(panel), ws[q].col, a) == Cell(PoolPct(panel), ws[q].col, b)
    {
      AlikeCell(panel, ws[q].col, a, b);
    }
    AccAgree(rnd, ws, PoolPct(panel), PoolPct(panel), a, b);
  }

  /** One score, and assets in ascending order. */
  ghost predicate Flat(s: seq<Cand>) {
    forall i, j :: 0 <= i < j < |s| ==> s[i].score == s[j].score && s[i].a < s[j].a
  }

  lemma AlikeFlat(rnd: Rounding, panel: Panel, ws: seq<Weight>)
    requires panel.Valid() && PlanValid(rnd, panel, ws) && Alike(panel)
    ensures Flat(RawItems(rnd, panel, ws)) && Flat(NormAll(rnd, WSum(rnd, ws), RawItems(rnd, panel, ws)))
  {
    var items := RawItems(rnd, panel, ws);
    hide Acc, Block, Alike;
    forall i, j | 0 <= i < j < |items|
      ensures items[i].score == items[j].score && items[i].a < items[j].a
    {
      AlikeAcc(rnd, panel, ws, i, j);
    }
  }

  lemma KeepSlices(items: seq<Cand>, cap: nat)
    requires items != []
    ensures var n := |items| - 1; var top := items[..MinInt(cap, n)];
      items[..n][..MinInt(cap, n)] == top && Keep(top + [items[n]], cap) == items[..MinInt(cap, n + 1)]
  {
  }

  /** Among equals the first to arrive are kept. */
  lemma {:induction false} FlatTop(items: seq<Cand>, cap: nat)
    requires Flat(items) && cap > 0
    ensures TopK(items, cap) == items[..MinInt(cap, |items|)]
  {
    if items != [] {
      var n := |items| - 1;
      hide TopK, Insert, Keep;
      FlatPart(items, n);
      FlatTop(items[..n], cap);
      KeepSlices(items, cap);
      FlatInsert(items[..MinInt(cap, n)], items[n]);
      TopKNext(items, cap);
    }
  }

  lemma TopKNext(items: seq<Cand>, cap: nat)
    requires items != []
    ensures TopK(items, cap) == Keep(Insert(TopK(items[..|items| - 1], cap), items[|items| - 1]), cap)
  {
  }

  lemma FlatInsert(top: seq<Cand>, c: Cand)
    requires forall i :: 0 <= i < |top| ==> top[i].score == c.score
    ensures Insert(top, c) == top + [c]
  {
    assert SlotFrom(top, |top|, c.score) == |top|;
  }

  lemma FlatRanked(s: seq<Cand>)
    requires Flat(s)
    ensures Ranked(s) == s
  {
    assert forall i :: 0 <= i < |s| ==> CandAssets(s)[i] == s[i].a;
    OrderedIsRanked(s, s);
  }

  lemma FlatPart(s: seq<Cand>, n: nat)
    requires Flat(s) && n <= |s|
    ensures Flat(s[..n])
  {
  }

  /** Of members all alike, the first are picked, and the ranking lists them as they come. */
  lemma AlikePicked(rnd: Rounding, panel: Panel, ws: seq<Weight>, nKeep: nat)
    requires panel.Valid() && PlanValid(rnd, panel, ws) && Alike(panel) && nKeep > 0
    ensures Picked(rnd, panel, ws, nKeep) <= DayRanking(rnd, panel, ws) && Flat(DayRanking(rnd, panel, ws))
  {
    var items := RawItems(rnd, panel, ws);
    var n := PickSize(|items|, nKeep);
    var all := NormAll(rnd, WSum(rnd, ws), items);
    AlikeFlat(rnd, panel, ws);
    SameItems(rnd, panel, ws);
    PickedAll(items, nKeep);
    hide Acc, Block, Alike, Ranked, TopK;
    if items != [] {
      FlatTop(items, n);
    }
    assert NormAll(rnd, WSum(rnd, ws), items[..n]) == all[..n];
    FlatPart(all, n);
    FlatRanked(all);
    FlatRanked(all[..n]);
  }

  /** A day of members all alike is stopped whenever some are kept and some are not, however many they are, and though its selection is right. */
  lemma AlikeStopped(rnd: Rounding, panel: Panel, ws: seq<Weight>, nKeep: nat)
    requires panel.Valid() && PlanValid(rnd, panel, ws) && Alike(panel)
    requires 0 < nKeep < |Members(panel.pool)|
    ensures !Passes(rnd, panel, ws, nKeep) && !Checked(Picked(rnd, panel, ws, nKeep), nKeep)
    ensures Picked(rnd, panel, ws, nKeep) <= DayRanking(rnd, panel, ws)
  {
    hide DayRanking, Picked, Alike, Members;
    AlikePicked(rnd, panel, ws, nKeep);
    var p, r := Picked(rnd, panel, ws, nKeep), DayRanking(rnd, panel, ws);
    assert p[nKeep - 1] == r[nKeep - 1] && p[|p| - 1] == r[|p| - 1];
  }

  /** Three members with one value, two to keep. */
  lemma ThreeAlike(v: real)
    ensures var rnd: Rounding, panel, ws := x => x, Panel([true, true, true], [[Some(v), Some(v), Some(v)]]), [Weight(0, 1.0)];
      && panel.Valid() && PlanValid(rnd, panel, ws) && |Members(panel.pool)| == 3
      && !Checked(Picked(rnd, panel, ws, 2), 2) && Picked(rnd, panel, ws, 2) == DayRanking(rnd, panel, ws)
  {
    var rnd: Rounding, panel, ws := x => x, Panel([true, true, true], [[Some(v), Some(v), Some(v)]]), [Weight(0, 1.0)];
    assert ws[..0] == [] && WSum(rnd, []) == 0.0;
    assert WSum(rnd, ws) == 1.0;
    ThreeMembers();
    hide Members;
    AlikeStopped(rnd, panel, ws, 2);
    NothingLeftOut(rnd, panel, ws, 2);
  }

  lemma ThreeMembers()
    ensures |Members([true, true, true])| == 3
  {
    assert [true, true, true][..2] == [true, true] && [true, true][..1] == [true] && [true][..0] == [];
  }
}
