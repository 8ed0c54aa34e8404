/** Queueing a page's posts oldest first, and what that keeps when the queueing is cut short. */
module ScanOrder {
  import opened Common
  import opened Scan
  import opened StableSort

  function Reverse(s: seq<Pid>): (r: seq<Pid>) {
    seq(|s|, i requires 0 <= i < |s| => s[|s| - 1 - i])
  }

  /** Every post older than the one before it on the list. */
  ghost predicate NewestFirst(s: seq<Pid>, time: Pid -> int) {
    forall i, j :: 0 <= i < j < |s| ==> time(s[i]) > time(s[j])
  }

  lemma {:induction false} InsertFront(s: seq<Pid>, x: Pid, time: Pid -> int)
    requires forall i :: 0 <= i < |s| ==> time(s[i]) > time(x)
    ensures Insert(s, x, time) == [x] + s
  {
    if s != [] {
      var n := |s| - 1;
      InsertFront(s[..n], x, time);
      assert s == s[..n] + [s[n]];
    }
  }

  lemma {:induction false} ByTimeReverses(s: seq<Pid>, time: Pid -> int)
    requires NewestFirst(s, time)
    ensures SortBy(s, time) == Reverse(s)
  {
    hide Insert, Reverse;
    if s != [] {
      var n := |s| - 1;
      ByTimeReverses(s[..n], time);
      ReverseFacts(s[..n]);
      InsertFront(Reverse(s[..n]), s[n], time);
      ReverseSnoc(s[..n], s[n]);
      assert s[..n] + [s[n]] == s;
    } else {
      ReverseFacts(s);
    }
  }

  lemma ReverseFacts(s: seq<Pid>)
    ensures |Reverse(s)| == |s| && forall i :: 0 <= i < |s| ==> Reverse(s)[i] == s[|s| - 1 - i]
  {
  }

  lemma ReverseSnoc(s: seq<Pid>, x: Pid)
    ensures Reverse(s + [x]) == [x] + Reverse(s)
  {
  }

  // ---- one line at a time ----

  /** The states passed through while rows are queued, a line each. */
  ghost predicate Lined(more: seq<Progress>, p: Progress, rows: seq<Pid>) {
    && |more| == |rows|
    && forall i :: 0 <= i < |rows| ==> more[i] == p.(seen := p.seen + Elems(rows[..i + 1]))
  }

  lemma {:induction false} WithoutNone(s: seq<Pid>, gone: set<Pid>)
    requires forall i :: 0 <= i < |s| ==> s[i] in gone
    ensures Without(s, gone) == []
  {
    if s != [] { WithoutNone(s[..|s| - 1], gone); }
  }

  lemma WithoutSnoc(s: seq<Pid>, x: Pid, gone: set<Pid>)
    ensures Without(s + [x], gone) == Without(s, gone) + if x in gone then [] else [x]
  {
    assert (s + [x])[..|s|] == s;
  }

  lemma {:induction false} WithoutAll(s: seq<Pid>, gone: set<Pid>)
    requires forall i :: 0 <= i < |s| ==> s[i] !in gone
    ensures Without(s, gone) == s
  {
    if s != [] {
      hide Without;
      var n := |s| - 1;
      assert s == s[..n] + [s[n]];
      WithoutAll(s[..n], gone);
      WithoutSnoc(s[..n], s[n], gone);
    }
  }

  // ---- sorting what is new ----

  lemma InsertIs(s: seq<Pid>, x: Pid, time: Pid -> int)
    ensures Insert(s, x, time) ==
      if s != [] && time(s[|s| - 1]) > time(x) then Insert(s[..|s| - 1], x, time) + [s[|s| - 1]] else s + [x]
  {
  }

  lemma InsertLast(s: seq<Pid>, y: Pid, x: Pid, time: Pid -> int)
    requires time(y) > time(x)
    ensures Insert(s + [y], x, time) == Insert(s, x, time) + [y]
  {
    assert (s + [y])[..|s|] == s;
  }

  lemma WithoutAppend(s: seq<Pid>, x: Pid, time: Pid -> int, gone: set<Pid>)
    requires Ascending(s, time) && (s == [] || time(s[|s| - 1]) <= time(x))
    ensures Without(s + [x], gone) == if x in gone then Without(s, gone) else Insert(Without(s, gone), x, time)
  {
    WithoutSnoc(s, x, gone);
    if s != [] { WithoutLate(s, time, gone); }
    InsertIs(Without(s, gone), x, time);
    Plain(Without(s, gone));
    assert s == [] ==> Without(s, gone) == [];
    hide Insert, Ascending, Without;
  }

  lemma WithoutBefore(s: seq<Pid>, y: Pid, ins: seq<Pid>, x: Pid, time: Pid -> int, gone: set<Pid>)
    requires time(y) > time(x)
    requires Without(ins, gone) == if x in gone then Without(s, gone) else Insert(Without(s, gone), x, time)
    ensures Without(ins + [y], gone) == if x in gone then Without(s + [y], gone) else Insert(Without(s + [y], gone), x, time)
  {
    hide Insert;
    WithoutSnoc(ins, y, gone);
    WithoutSnoc(s, y, gone);
    hide Without;
    InsertLast(Without(s, gone), y, x, time);
    Plain(Without(ins, gone));
    Plain(Without(s, gone));
  }

  lemma {:induction false} WithoutInsert(s: seq<Pid>, x: Pid, time: Pid -> int, gone: set<Pid>)
    requires Ascending(s, time)
    ensures Without(Insert(s, x, time), gone) == if x in gone then Without(s, gone) else Insert(Without(s, gone), x, time)
  {
    InsertIs(s, x, time);
    if s != [] {
      AscendingPart(s, time);
    }
    hide Insert, Ascending, Without;
    if s != [] && time(s[|s| - 1]) > time(x) {
      var n := |s| - 1;
      WithoutInsert(s[..n], x, time, gone);
      FromParts(s);
      WithoutBefore(s[..n], s[n], Insert(s[..n], x, time), x, time, gone);
    } else {
      WithoutAppend(s, x, time, gone);
    }
  }

  lemma AscendingPart(s: seq<Pid>, time: Pid -> int)
    requires Ascending(s, time) && s != []
    ensures Ascending(s[..|s| - 1], time)
  {
  }

  lemma FromParts(s: seq<Pid>)
    requires s != []
    ensures s[..|s| - 1] + [s[|s| - 1]] == s
  {
  }

  lemma Plain(s: seq<Pid>)
    ensures s + [] == s
  {
  }

  /** Its last element is no later than the whole's. */
  lemma {:induction false} WithoutLate(s: seq<Pid>, time: Pid -> int, gone: set<Pid>)
    requires Ascending(s, time) && s != []
    ensures var r := Without(s, gone); r != [] ==> time(r[|r| - 1]) <= time(s[|s| - 1])
  {
    var r := Without(s, gone);
    if r != [] {
      assert r[|r| - 1] in s;
    }
  }

  /** Sorting and leaving some out change nothing of each other. */
  lemma {:induction false} WithoutSort(s: seq<Pid>, time: Pid -> int, gone: set<Pid>)
    ensures Without(SortBy(s, time), gone) == SortBy(Without(s, gone), time)
  {
    if s == [] {
      SortNone(time);
    } else {
      var n := |s| - 1;
      assert s == s[..n] + [s[n]];
      SortAscending(s[..n], time);
      hide Insert, Ascending, SortBy, Without;
      WithoutSort(s[..n], time, gone);
      SortSnoc(s[..n], s[n], time);
      WithoutInsert(SortBy(s[..n], time), s[n], time, gone);
      WithoutSnoc(s[..n], s[n], gone);
      SortSnoc(Without(s[..n], gone), s[n], time);
      Plain(Without(s[..n], gone));
    }
  }

  lemma SortSnoc(s: seq<Pid>, x: Pid, time: Pid -> int)
    ensures SortBy(s + [x], time) == Insert(SortBy(s, time), x, time)
  {
    assert (s + [x])[..|s|] == s;
  }

  lemma {:induction false} InsertedFirst(t: seq<Pid>, x: Pid, u: seq<Pid>, time: Pid -> int)
    requires Insert(t, x, time) == [x] + u && x !in t
    ensures u == t && forall i :: 0 <= i < |t| ==> time(t[i]) > time(x)
  {
    if t != [] {
      var n := |t| - 1;
      NotFirst(t, x, u);
      if time(t[n]) > time(x) {
        LastOff(Insert(t[..n], x, time), t[n], x, u);
        InsertedFirst(t[..n], x, u[..|u| - 1], time);
      }
    }
  }

  lemma NotFirst(t: seq<Pid>, x: Pid, u: seq<Pid>)
    requires t != [] && x !in t
    ensures t + [x] != [x] + u
  {
    assert (t + [x])[0] == t[0];
  }

  lemma LastOff(r: seq<Pid>, y: Pid, x: Pid, u: seq<Pid>)
    requires r + [y] == [x] + u && r != []
    ensures u != [] && u[|u| - 1] == y && r == [x] + u[..|u| - 1]
  {
    assert |r| == |u|;
    assert r == ([x] + u)[..|u|];
    assert u[|u| - 1] == ([x] + u)[|u|] == (r + [y])[|r|];
  }

  /** Only a list without equal times is reversed by the sort: equals keep their order. */
  lemma {:induction false} ReversedNewest(s: seq<Pid>, time: Pid -> int)
    requires Distinct(s) && SortBy(s, time) == Reverse(s)
    ensures NewestFirst(s, time)
  {
    if s != [] {
      var n := |s| - 1;
      var init, x := s[..n], s[n];
      assert s == init + [x];
      hide Insert, Reverse, SortBy, NewestFirst, Distinct;
      DistinctSnoc(init, x);
      ReverseSnoc(init, x);
      SortSnoc(init, x, time);
      SortSame(init, time);
      Sizes(SortBy(init, time), init);
      InsertedFirst(SortBy(init, time), x, Reverse(init), time);
      ReversedNewest(init, time);
      NewestSnoc(init, SortBy(init, time), x, time);
    }
  }

  lemma NewestSnoc(s: seq<Pid>, t: seq<Pid>, x: Pid, time: Pid -> int)
    requires NewestFirst(s, time) && (forall y :: y in s ==> y in t) && forall i :: 0 <= i < |t| ==> time(t[i]) > time(x)
    ensures NewestFirst(s + [x], time)
  {
    forall i | 0 <= i < |s|
      ensures time(s[i]) > time(x)
    {
      assert s[i] in t;
    }
  }

  /** Any number of those lines leaves the known posts the list's older part. */
  lemma LineKeepsSuffix(list: seq<Pid>, seen: set<Pid>, lo: nat, k: nat, i: nat)
    requires Distinct(list) && Suffix(list, seen, k) && lo + i <= k
    ensures Suffix(list, seen + Elems(Reverse(list[lo..k])[..i]), k - i)
  {
    hide Reverse;
    ReverseFacts(list[lo..k]);
    var r := Reverse(list[lo..k])[..i];
    assert forall q :: 0 <= q < i ==> r[q] == list[k - 1 - q];
    forall j | 0 <= j < k - i
      ensures list[j] !in r
    {
      assert forall q :: 0 <= q < i ==> r[q] != list[j];
    }
    forall j | k - i <= j < k
      ensures list[j] in r
    {
      assert r[k - 1 - j] == list[j];
    }
  }

  /** What is new in a stretch of the list that reaches the older part. */
  lemma StretchNews(list: seq<Pid>, seen: set<Pid>, k: nat, lo: nat, hi: nat, time: Pid -> int)
    requires Suffix(list, seen, k) && lo <= hi <= |list| && k <= hi
    ensures Without(SortBy(list[lo..hi], time), seen) == SortBy(list[lo..MaxInt(lo, k)], time)
  {
    var mid := MaxInt(lo, k);
    var newer, older := list[lo..mid], list[mid..hi];
    NewAndKnown(list, seen, k, lo, hi);
    assert list[lo..hi] == newer + older;
    hide Suffix, SortBy, Without, MaxInt;
    WithoutSort(list[lo..hi], time, seen);
    NewOnly(newer, older, seen);
  }

  lemma NewOnly(newer: seq<Pid>, older: seq<Pid>, seen: set<Pid>)
    requires forall i :: 0 <= i < |newer| ==> newer[i] !in seen
    requires forall i :: 0 <= i < |older| ==> older[i] in seen
    ensures Without(newer + older, seen) == newer
  {
    hide Without;
    WithoutJoin(newer, older, seen);
    WithoutAll(newer, seen);
    WithoutNone(older, seen);
    Plain(newer);
  }

  lemma NewAndKnown(list: seq<Pid>, seen: set<Pid>, k: nat, lo: nat, hi: nat)
    requires Suffix(list, seen, k) && lo <= hi <= |list| && k <= hi
    ensures var mid := MaxInt(lo, k);
      && (forall i :: 0 <= i < |list[lo..mid]| ==> list[lo..mid][i] !in seen)
      && forall i :: 0 <= i < |list[mid..hi]| ==> list[mid..hi][i] in seen
  {
  }

  /** Newest first, the new posts of a stretch are queued so that every line keeps the older part known. */
  lemma InOrderKeeps(list: seq<Pid>, p: Progress, k: nat, lo: nat, more: seq<Progress>, time: Pid -> int)
    requires Distinct(list) && Suffix(list, p.seen, k) && lo <= k <= |list| && NewestFirst(list[lo..k], time)
    requires Lined(more, p, SortBy(list[lo..k], time))
    ensures forall i :: 0 <= i < |more| ==> IsSuffix(list, more[i].seen)
  {
    hide Suffix, Reverse, SortBy;
    ByTimeReverses(list[lo..k], time);
    ReverseFacts(list[lo..k]);
    forall i | 0 <= i < |more|
      ensures IsSuffix(list, more[i].seen)
    {
      LineKeepsSuffix(list, p.seen, lo, k, i + 1);
      assert Suffix(list, more[i].seen, k - (i + 1));
    }
  }

  /** If the first i of some new posts leave the older part known, they are the i oldest new ones. */
  lemma OldestNew(list: seq<Pid>, seen: set<Pid>, k: nat, news: seq<Pid>, i: nat)
    requires Distinct(list) && Suffix(list, seen, k) && Distinct(news) && i <= |news|
    requires forall x :: x in news ==> x in list[..k]
    requires IsSuffix(list, seen + Elems(news[..i]))
    ensures i <= k && Elems(news[..i]) == Elems(list[k - i..k])
  {
    var part := news[..i];
    var h: nat :| Suffix(list, seen + Elems(part), h);
    SuffixGrows(list, seen, Elems(part), k, h);
    assert forall x :: x in part ==> x in news;
    SuffixAdds(list, seen, k, part, h);
    DistinctSlice(news, 0, i);
    DistinctSlice(list, h, k);
    hide Suffix, Distinct;
    assert news[0..i] == part;
    ElemsSize(part);
    ElemsSize(list[h..k]);
  }

  /** What makes a longer part known is the stretch between. */
  lemma SuffixAdds(list: seq<Pid>, seen: set<Pid>, k: nat, part: seq<Pid>, h: nat)
    requires Suffix(list, seen, k) && h <= k && Suffix(list, seen + Elems(part), h)
    requires forall x :: x in part ==> x in list[..k]
    ensures Elems(part) == Elems(list[h..k])
  {
    forall x | x in part
      ensures x in list[h..k]
    {
      assert x in list[..k];
      var j :| 0 <= j < k && list[..k][j] == x;
      assert list[j] == x && j >= h;
      assert list[h..k][j - h] == x;
    }
    forall x | x in list[h..k]
      ensures x in part
    {
      var j :| 0 <= j < k - h && list[h..k][j] == x;
      assert list[h + j] == x;
    }
  }

  lemma SuffixGrows(list: seq<Pid>, seen: set<Pid>, more: set<Pid>, k: nat, h: nat)
    requires Suffix(list, seen, k) && Suffix(list, seen + more, h)
    ensures h <= k <= |list|
  {
    assert k < |list| ==> list[k] in seen;
  }

  lemma {:induction false} KeptIsInOrder(list: seq<Pid>, p: Progress, k: nat, lo: nat, more: seq<Progress>, time: Pid -> int)
    requires Distinct(list) && Suffix(list, p.seen, k) && lo <= k <= |list|
    requires Lined(more, p, SortBy(list[lo..k], time)) && forall i :: 0 <= i < |more| ==> IsSuffix(list, more[i].seen)
    ensures NewestFirst(list[lo..k], time)
  {
    var s := list[lo..k];
    var news := SortBy(s, time);
    SortedNews(list, k, lo, time);
    hide SortBy, Suffix, IsSuffix, NewestFirst;
    forall i | 0 <= i < |news|
      ensures news[i] == s[|s| - 1 - i]
    {
      FirstIs(list, p, k, lo, more, news, i);
    }
    ReverseFacts(s);
    hide Reverse, Lined;
    assert news == Reverse(s);
    ReversedNewest(s, time);
  }

  lemma SortedNews(list: seq<Pid>, k: nat, lo: nat, time: Pid -> int)
    requires Distinct(list) && lo <= k <= |list|
    ensures Distinct(list[lo..k])
    ensures var news := SortBy(list[lo..k], time); Distinct(news) && |news| == k - lo && forall x :: x in news ==> x in list[..k]
  {
    var s := list[lo..k];
    SortSame(s, time);
    hide SortBy;
    Sizes(SortBy(s, time), s);
    DistinctSlice(list, lo, k);
    DistinctPermutation(s, SortBy(s, time));
    forall x | x in s
      ensures x in list[..k]
    {
      var q :| 0 <= q < |s| && s[q] == x;
      assert list[..k][lo + q] == x;
    }
  }

  lemma FirstIs(list: seq<Pid>, p: Progress, k: nat, lo: nat, more: seq<Progress>, news: seq<Pid>, i: nat)
    requires Distinct(list) && Suffix(list, p.seen, k) && lo <= k <= |list| && Distinct(news) && |news| == k - lo
    requires forall x :: x in news ==> x in list[..k]
    requires Lined(more, p, news) && (forall j :: 0 <= j < |more| ==> IsSuffix(list, more[j].seen)) && i < |news|
    ensures news[i] == list[k - 1 - i]
  {
    assert more[i].seen == p.seen + Elems(news[..i + 1]);
    if i == 0 {
      assert p.seen + Elems(news[..0]) == p.seen;
      assert IsSuffix(list, p.seen);
    } else {
      assert more[i - 1].seen == p.seen + Elems(news[..i - 1 + 1]);
    }
    hide Suffix, IsSuffix;
    OldestNew(list, p.seen, k, news, i);
    OldestNew(list, p.seen, k, news, i + 1);
    OneMoreIs(news, list, k, i);
  }

  lemma OneMoreIs(news: seq<Pid>, list: seq<Pid>, k: nat, i: nat)
    requires Distinct(news) && i < |news| && i + 1 <= k <= |list|
    requires Elems(news[..i]) == Elems(list[k - i..k]) && Elems(news[..i + 1]) == Elems(list[k - (i + 1)..k])
    ensures news[i] == list[k - 1 - i]
  {
    var s := list[k - (i + 1)..k];
    assert news[..i + 1][i] == news[i];
    assert news[i] in Elems(news[..i + 1]);
    assert news[i] in s;
    var q :| 0 <= q < |s| && s[q] == news[i];
    assert news[i] !in news[..i];
    assert news[i] !in Elems(list[k - i..k]);
    assert forall r :: 1 <= r < |s| ==> s[r] == list[k - i..k][r - 1] && s[r] in list[k - i..k];
  }

  /**
   * A stretch of the list that reaches the older part, its new posts queued a line each:
   * every line leaves the older part known if and only if the new posts stand newest first.
   */
  lemma StretchIff(list: seq<Pid>, p: Progress, k: nat, lo: nat, hi: nat, more: seq<Progress>, time: Pid -> int)
    requires Distinct(list) && Suffix(list, p.seen, k) && lo <= hi <= |list| && k <= hi
    requires Lined(more, p, Without(SortBy(list[lo..hi], time), p.seen))
    ensures (forall i :: 0 <= i < |more| ==> IsSuffix(list, more[i].seen)) <==> NewestFirst(list[lo..MaxInt(lo, k)], time)
    ensures Suffix(list, p.seen + Elems(list[lo..hi]), MinInt(lo, k))
  {
    StretchAdds(list, p.seen, k, lo, hi);
    StretchNews(list, p.seen, k, lo, hi, time);
    hide Suffix, IsSuffix, SortBy, Without;
    if k <= lo {
      assert list[lo..lo] == [];
      SortNone(time);
    } else {
      hide NewestFirst, Lined;
      if NewestFirst(list[lo..k], time) {
        InOrderKeeps(list, p, k, lo, more, time);
      }
      if forall i :: 0 <= i < |more| ==> IsSuffix(list, more[i].seen) {
        KeptIsInOrder(list, p, k, lo, more, time);
      }
    }
  }

  lemma SortNone(time: Pid -> int)
    ensures SortBy<Pid>([], time) == []
  {
  }

  lemma StretchAdds(list: seq<Pid>, seen: set<Pid>, k: nat, lo: nat, hi: nat)
    requires Distinct(list) && Suffix(list, seen, k) && lo <= hi <= |list| && k <= hi
    ensures Suffix(list, seen + Elems(list[lo..hi]), MinInt(lo, k))
  {
    var s := list[lo..hi];
    forall j | 0 <= j < |list|
      ensures list[j] in s <==> lo <= j < hi
    {
      if lo <= j < hi { assert s[j - lo] == list[j]; }
    }
  }

  // ---- pages ----

  lemma PageFacts(list: seq<Pid>, size: nat, p: nat)
    requires p >= 1
    ensures 0 <= (p - 1) * size <= p * size
    ensures var e := PageOf(list, size, p);
      && (e != [] ==> (p - 1) * size < |list| && e[0] == list[(p - 1) * size])
      && forall h :: 0 <= h < |list| && (p - 1) * size <= h < p * size ==> list[h] in e
  {
    assert p * size == (p - 1) * size + size;
    var lo, hi := (p - 1) * size, p * size;
    assert lo >= 0;
    forall h | 0 <= h < |list| && lo <= h < hi
      ensures list[h] in PageOf(list, size, p)
    {
      assert PageOf(list, size, p)[h - lo] == list[h];
    }
  }

  lemma PageSeen(list: seq<Pid>, size: nat, p: nat, seen: set<Pid>)
    requires p >= 1 && AllSeen(list, seen, p * size) && forall x :: x in PageOf(list, size, p) ==> x in seen
    ensures AllSeen(list, seen, (p - 1) * size)
  {
    hide PageOf;
    PageFacts(list, size, p);
  }

  lemma OnPage(list: seq<Pid>, size: nat, p: nat, a: Pid) returns (h: nat)
    requires p >= 1 && a in PageOf(list, size, p)
    ensures h < |list| && list[h] == a && (p - 1) * size <= h < p * size
  {
    PageFacts(list, size, p);
    var e := PageOf(list, size, p);
    var q :| 0 <= q < |e| && e[q] == a;
    h := MinInt((p - 1) * size, |list|) + q;
  }

  lemma PagesReach(list: seq<Pid>, size: nat)
    requires size > 0
    ensures PageTotal(|list|, size) * size >= |list|
  {
    PagesBound(|list|, size);
  }

  lemma Below(p: nat, t: nat, size: nat)
    requires 1 <= p <= t
    ensures 0 <= (p - 1) * size <= (t - 1) * size && p * size == (p - 1) * size + size
  {
    assert (t - p) * size >= 0;
    assert (p - 1) * size + (t - p) * size == (t - 1) * size;
  }

  lemma PageNonempty(list: seq<Pid>, size: nat, p: nat)
    requires 1 <= p <= PageTotal(|list|, size) && size > 0
    ensures PageOf(list, size, p) != []
  {
    var t := PageTotal(|list|, size);
    PagesBound(|list|, size);
    hide PageTotal;
    Below(p, t, size);
    FromHere(list, (p - 1) * size, p * size);
  }

  lemma FromHere(list: seq<Pid>, lo: int, hi: int)
    requires 0 <= lo < hi && lo < |list|
    ensures list[MinInt(lo, |list|)..MinInt(hi, |list|)] != []
  {
  }

  /** The pages read so far, one more. */
  lemma PagesJoin(list: seq<Pid>, size: nat, p: nat)
    requires p >= 1
    ensures 0 <= (p - 1) * size && list[..MinInt((p - 1) * size, |list|)] + PageOf(list, size, p) == list[..MinInt(p * size, |list|)]
  {
    PageFacts(list, size, p);
  }
}
