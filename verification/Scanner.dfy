/**
 * The two scans of a site's list, as the program runs them. `trail` is every state that
 * a kill could leave behind: one for each queued line and each saved progress.
 */
module Scanner {
  import opened Common
  import opened Scan
  import opened ScanOrder
  import opened ScanSpec
  import opened StableSort

  class Scanner {
    const w: Site
    var st: Progress
    ghost var trail: seq<Progress>

    constructor (w: Site, st: Progress)
      ensures this.w == w && this.st == st && trail == []
    {
      this.w, this.st, trail := w, st, [];
    }

    method Save(p: Progress)
      modifies this`st, this`trail
      ensures st == p && trail == old(trail) + [p]
    {
      st := p;
      trail := trail + [p];
    }

    /** Queues the posts not known before, a line each. */
    method AddPending(rows: seq<Pid>) returns (added: nat)
      modifies this`st, this`trail
      ensures trail == old(trail) + Lines(old(st), rows) && added == |Lines(old(st), rows)|
      ensures st == old(st).(seen := old(st.seen) + Elems(rows))
    {
      hide Lines;
      ghost var p0 := st;
      var news := Without(rows, st.seen);
      ghost var lines := Lines(p0, rows);
      var i := 0;
      LinesStart(p0, rows);
      while i < |news|
        invariant 0 <= i <= |news| == |lines| && st == p0.(seen := p0.seen + Elems(news[..i]))
        invariant trail == old(trail) + lines[..i]
      {
        LinesAt(p0, rows, i);
        Save(st.(seen := st.seen + {news[i]}));
        i := i + 1;
      }
      LinesAll(p0, rows);
      added := |news|;
    }

    /** The page the anchor is on now, or the oldest page when it is not found. */
    method LocateAnchor(anchor: Pid, hint: nat, totalPages: nat) returns (at: nat)
      requires hint >= 1 && totalPages == w.Pages()
      ensures at == Locate(w, anchor, hint)
      ensures at == totalPages || (1 <= at <= totalPages && anchor in w.Page(at))
    {
      hide PageOf, PageTotal;
      var last := MinInt(totalPages, hint + ANCHOR_WINDOW);
      var page := hint;
      LocateIs(w, anchor, hint, last);
      while page <= last
        invariant page >= 1 && LocateFrom(w, anchor, page, last) == Locate(w, anchor, hint)
        decreases last - page
      {
        if anchor in w.Page(page) {
          return page;
        }
        page := page + 1;
      }
      return totalPages;
    }

    /** One page of the deep scan: its posts queued oldest first, then the anchor moved to its newest. */
    method ScanPage(page: nat, entries: seq<Pid>) returns (added: nat)
      requires Distinct(w.list) && page >= 1 && entries == w.Page(page) != []
      modifies this`st, this`trail
      ensures st == AfterPage(w, old(st), page) && |st.seen| == |old(st.seen)| + added
      ensures trail == old(trail) + Lines(old(st), SortBy(entries, w.time)) + [st]
    {
      hide PageOf, Lines, SortBy;
      ghost var p := st;
      var rows := SortBy(entries, w.time);
      RowsOfPage(w, page);
      RowsDistinct(w, page);
      AddedCount(p, rows);
      added := AddPending(rows);
      Save(st.(anchor := Some(entries[0]), page := Some(page)));
    }

    /** From a page to the newest one, or until maxPages are read; then, if through, marked finished. */
    method ReadDown(start: nat, maxPages: nat) returns (added: nat)
      requires Distinct(w.list)
      modifies this`st, this`trail
      ensures trail == old(trail) + DeepFrom(w, old(st), start, maxPages)
      ensures st == Last(old(st), DeepFrom(w, old(st), start, maxPages))
      ensures |st.seen| == |old(st.seen)| + added
    {
      hide PageOf, DeepFrom, AfterPage, SortBy, Lines, Ahead, Latest, PageAfter;
      ghost var p0, before := st, trail;
      ghost var whole := DeepFrom(w, p0, start, maxPages);
      ghost var rest := whole;
      var page, scanned := start, 0;
      added := 0;
      AheadStart(before, whole, p0);
      while page >= 1
        invariant page >= 0 && scanned >= 0 && (maxPages == 0 || scanned < maxPages)
        invariant rest == DeepFrom(w, st, page, Remaining(maxPages, scanned))
        invariant Ahead(before, whole, trail, rest) && Latest(before, trail, p0, st)
        invariant |st.seen| == |p0.seen| + added
        decreases page
      {
        var entries := w.Page(page);
        DeepNext(w, st, page, Remaining(maxPages, scanned));
        if entries == [] {
          break;
        }
        ghost var p, t := st, trail;
        var n := ScanPage(page, entries);
        rest := PageAfter(w, p, page, Remaining(maxPages, scanned));
        AheadNext(before, whole, t, Lines(p, SortBy(entries, w.time)), st, rest, p0, p);
        PageAfterIs(w, p, page, maxPages, scanned);
        added := added + n;
        scanned := scanned + 1;
        page := page - 1;
        if maxPages != 0 && scanned >= maxPages {
          break;
        }
      }
      if page < 1 {
        DeepDone(w, st, Remaining(maxPages, scanned));
        AheadNext(before, whole, trail, [], st.(done := true), [], p0, st);
        Save(st.(done := true));
      }
      LatestIsLast(before, trail, p0, st, whole);
    }

    /**
     * The deep scan, from the oldest page to the newest, its progress saved page by
     * page. From a sound state every state where it may be killed is sound; from any
     * state it learns all of the list exactly when all was known behind where it set out.
     */
    method DiscoverDeep(restart: bool, maxPages: nat) returns (added: nat)
      requires Distinct(w.list) && (st.anchor.Some? ==> st.page.Some? && st.page.value >= 1)
      modifies this`st, this`trail
      ensures trail == old(trail) + DeepTrail(w, old(st), restart, maxPages)
      ensures st == Last(old(st), DeepTrail(w, old(st), restart, maxPages))
      ensures Sound(w.list, old(st)) ==>
        AllFollow(w.list, old(st), DeepTrail(w, old(st), restart, maxPages)) && Follows(w.list, old(st), st)
      ensures w.size > 0 ==> (st.done <==> old(st.done) || maxPages == 0 || DeepStart(w, old(st), restart) <= maxPages)
      ensures w.size > 0 && (maxPages == 0 || DeepStart(w, old(st), restart) <= maxPages) ==>
        (AllSeen(w.list, st.seen, 0) <==> KnownBeyond(w, old(st.seen), DeepStart(w, old(st), restart)))
      ensures added == |st.seen| - |old(st.seen)|
    {
      hide PageOf, PageTotal, Sound, Follows, AllSeen, KnownBeyond, DeepFrom, Locate, Last;
      ghost var p0 := st;
      DeepEnds(w, st, restart, maxPages);
      var totalPages := w.Pages();
      var page := totalPages;
      if !restart && st.anchor.Some? {
        page := LocateAnchor(st.anchor.value, st.page.value, totalPages);
      }
      assert page == DeepStart(w, p0, restart);
      hide DeepStart;
      added := ReadDown(page, maxPages);
    }

    /** Pages from the front on, until two in a row hold nothing new. */
    method ReadPages(maxPages: nat) returns (found: seq<Pid>)
      ensures found == Found(w, st.seen, maxPages)
    {
      hide PageOf, PageTotal, Quiet;
      var page, quiet, totalPages := 1, 0, w.Pages();
      found := [];
      assert Upfront(w, 0) == [];
      while true
        invariant page >= 1 && found == Upfront(w, page - 1)
        invariant LastRead(w, st.seen, maxPages, page, quiet) == PagesRead(w, st.seen, maxPages)
        decreases totalPages - page
      {
        var entries := w.Page(page);
        UpfrontNext(w, page);
        if entries == [] {
          break;
        }
        var allKnown := Quiet(w, st.seen, page);
        found := found + entries;
        quiet := if allKnown then quiet + 1 else 0;
        if page >= totalPages || quiet >= STOP_PAGES {
          break;
        }
        if maxPages != 0 && page >= maxPages {
          break;
        }
        page := page + 1;
      }
    }

    /**
     * The shallow scan: read first, then queue oldest first. When the known posts are
     * the list's older part, they are so after it, and all is known, exactly when the cap
     * allows all the new ones; they are so wherever the scan may be killed exactly when
     * the new ones stand newest first, too.
     */
    method DiscoverShallow(maxPages: nat) returns (added: nat)
      requires Distinct(w.list)
      modifies this`st, this`trail
      ensures trail == old(trail) + ShallowTrail(w, old(st), maxPages)
      ensures st == old(st).(seen := old(st.seen) + Elems(Found(w, old(st.seen), maxPages)))
      ensures Sound(w.list, old(st)) ==>
        AllFollow(w.list, old(st), ShallowTrail(w, old(st), maxPages)) && Follows(w.list, old(st), st)
      ensures added == |st.seen| - |old(st.seen)|
      ensures forall k: nat :: w.size > 0 && Suffix(w.list, old(st.seen), k) ==>
        && k <= |w.list|
        && (IsSuffix(w.list, st.seen) <==> maxPages == 0 || k <= maxPages * w.size)
        && (AllSeen(w.list, st.seen, 0) <==> maxPages == 0 || k <= maxPages * w.size)
        && (AllSuffix(w.list, ShallowTrail(w, old(st), maxPages)) <==>
              (maxPages == 0 || k <= maxPages * w.size) && NewestFirst(w.list[..k], w.time))
    {
      hide PageOf, PageTotal, Sound, Follows, AllSeen, SortBy, Lines, Found, Suffix, IsSuffix;
      ghost var p0 := st;
      var found := ReadPages(maxPages);
      var rows := SortBy(found, w.time);
      ShallowRows(w, p0, maxPages);
      if Sound(w.list, p0) {
        ShallowSound(w, p0, maxPages);
      }
      AddedCount(p0, rows);
      added := AddPending(rows);
      forall k: nat | w.size > 0 && Suffix(w.list, p0.seen, k)
        ensures ShallowLaws(w, p0, maxPages, k)
      {
        ShallowKeeps(w, p0, maxPages, k);
      }
    }
  }

  lemma LinesStart(p: Progress, rows: seq<Pid>)
    ensures |Lines(p, rows)| == |Without(rows, p.seen)| && Elems(Without(rows, p.seen)[..0]) == {}
  {
  }

  lemma LinesAt(p: Progress, rows: seq<Pid>, i: nat)
    requires i < |Without(rows, p.seen)|
    ensures var news := Without(rows, p.seen); p.seen + Elems(news[..i]) + {news[i]} == p.seen + Elems(news[..i + 1])
    ensures var news, lines := Without(rows, p.seen), Lines(p, rows);
      i < |lines| && lines[..i + 1] == lines[..i] + [p.(seen := p.seen + Elems(news[..i + 1]))]
  {
    var news, lines := Without(rows, p.seen), Lines(p, rows);
    assert lines[i] == p.(seen := p.seen + Elems(news[..i + 1]));
    hide *;
    PrefixNext(news, i);
    PrefixNext(lines, i);
  }

  lemma PrefixNext<T>(s: seq<T>, i: nat)
    requires i < |s|
    ensures s[..i + 1] == s[..i] + [s[i]] && Elems(s[..i + 1]) == Elems(s[..i]) + {s[i]}
  {
  }

  lemma LinesAll(p: Progress, rows: seq<Pid>)
    ensures var news, lines := Without(rows, p.seen), Lines(p, rows);
      |lines| == |news| && news[..|news|] == news && lines[..|news|] == lines && p.seen + Elems(news) == p.seen + Elems(rows)
  {
  }

  /** What a shallow scan does to a list whose k newest posts are the unknown ones. */
  ghost predicate ShallowLaws(w: Site, p: Progress, cap: nat, k: nat) {
    var after := p.seen + Elems(Found(w, p.seen, cap));
    && (IsSuffix(w.list, after) <==> cap == 0 || k <= cap * w.size)
    && (AllSeen(w.list, after, 0) <==> cap == 0 || k <= cap * w.size) && k <= |w.list|
    && (AllSuffix(w.list, ShallowTrail(w, p, cap)) <==> (cap == 0 || k <= cap * w.size) && NewestFirst(w.list[..k], w.time))
  }

  lemma ShallowKeeps(w: Site, p: Progress, cap: nat, k: nat)
    requires Distinct(w.list) && w.size > 0 && Suffix(w.list, p.seen, k)
    ensures ShallowLaws(w, p, cap, k)
  {
    hide PageOf, PageTotal, AllSeen, SortBy, Lines, Found, Suffix, IsSuffix, NewestFirst, AllSuffix, ShallowTrail;
    CapLeavesGap(w, p.seen, cap, k);
    SuffixLearns(w, p.seen, cap, k);
    SuffixBound(w.list, p.seen, k);
    ShallowSuffix(w, p, cap, k);
  }

  lemma RowsDistinct(w: Site, page: nat)
    requires Distinct(w.list) && page >= 1
    ensures Distinct(SortBy(w.Page(page), w.time))
  {
    hide SortBy;
    PagePart(w, page);
    SortSame(w.Page(page), w.time);
    DistinctPermutation(w.Page(page), SortBy(w.Page(page), w.time));
  }

  lemma PagePart(w: Site, page: nat)
    requires Distinct(w.list) && page >= 1
    ensures Distinct(w.Page(page))
  {
    PageFacts(w.list, w.size, page);
    DistinctSlice(w.list, MinInt((page - 1) * w.size, |w.list|), MinInt(page * w.size, |w.list|));
    hide Distinct;
  }

  /** As many lines as posts become known. */
  lemma {:induction false} AddedCount(p: Progress, rows: seq<Pid>)
    requires Distinct(rows)
    ensures |p.seen + Elems(rows)| == |p.seen| + |Lines(p, rows)|
  {
    WithoutCount(p.seen, rows);
  }

  lemma {:induction false} WithoutCount(seen: set<Pid>, rows: seq<Pid>)
    requires Distinct(rows)
    ensures |seen + Elems(rows)| == |seen| + |Without(rows, seen)|
  {
    if rows == [] {
      assert seen + Elems(rows) == seen;
    } else {
      var n := |rows| - 1;
      assert rows == rows[..n] + [rows[n]];
      DistinctSnoc(rows[..n], rows[n]);
      WithoutCount(seen, rows[..n]);
      OneMore(seen, rows[..n], rows[n]);
    }
  }

  lemma OneMore(seen: set<Pid>, rows: seq<Pid>, x: Pid)
    requires x !in rows
    ensures |seen + Elems(rows + [x])| == |seen + Elems(rows)| + if x in seen then 0 else 1
  {
    var all := seen + Elems(rows);
    assert Elems(rows + [x]) == Elems(rows) + {x};
    if x in seen {
      assert seen + Elems(rows + [x]) == all;
    } else {
      assert seen + Elems(rows + [x]) == all + {x};
    }
  }

  function Remaining(maxPages: nat, scanned: nat): nat {
    if maxPages == 0 || scanned >= maxPages then 0 else maxPages - scanned
  }

  /** What the deep scan still does when it has read a page. */
  ghost function PageAfter(w: Site, p: Progress, page: nat, cap: nat): seq<Progress>
    requires page >= 1 && w.Page(page) != []
  {
    if cap == 1 && page > 1 then [] else DeepFrom(w, AfterPage(w, p, page), page - 1, if cap == 0 then 0 else cap - 1)
  }

  lemma PageAfterIs(w: Site, p: Progress, page: nat, maxPages: nat, scanned: nat)
    requires page >= 1 && w.Page(page) != [] && (maxPages == 0 || scanned < maxPages)
    ensures var rest := PageAfter(w, p, page, Remaining(maxPages, scanned));
      if maxPages != 0 && scanned + 1 >= maxPages && page > 1 then rest == []
      else rest == DeepFrom(w, AfterPage(w, p, page), page - 1, Remaining(maxPages, scanned + 1))
  {
    hide PageOf, DeepFrom, AfterPage;
  }

  /** What the deep scan does at a page. */
  lemma DeepNext(w: Site, p: Progress, page: nat, cap: nat)
    requires page >= 1
    ensures w.Page(page) == [] ==> DeepFrom(w, p, page, cap) == []
    ensures w.Page(page) != [] ==>
      DeepFrom(w, p, page, cap) == Lines(p, SortBy(w.Page(page), w.time)) + [AfterPage(w, p, page)] + PageAfter(w, p, page, cap)
  {
    hide PageOf, Lines, SortBy, AfterPage;
  }

  lemma DeepDone(w: Site, p: Progress, cap: nat)
    ensures DeepFrom(w, p, 0, cap) == [] + [p.(done := true)] + []
  {
  }

  /** What has been done and what is still to do make up the whole. */
  ghost predicate Ahead(before: seq<Progress>, whole: seq<Progress>, trail: seq<Progress>, rest: seq<Progress>) {
    before + whole == trail + rest
  }

  ghost predicate Latest(before: seq<Progress>, trail: seq<Progress>, p0: Progress, st: Progress) {
    && before <= trail && if before == trail then st == p0 else trail[|trail| - 1] == st
  }

  lemma AheadStart(before: seq<Progress>, whole: seq<Progress>, p0: Progress)
    ensures Ahead(before, whole, before, whole) && Latest(before, before, p0, p0)
  {
  }

  lemma AheadNext(before: seq<Progress>, whole: seq<Progress>, trail: seq<Progress>, lines: seq<Progress>, q: Progress, rest: seq<Progress>, p0: Progress, p: Progress)
    requires Ahead(before, whole, trail, lines + [q] + rest) && Latest(before, trail, p0, p)
    ensures Ahead(before, whole, trail + lines + [q], rest) && Latest(before, trail + lines + [q], p0, q)
  {
    assert trail + (lines + [q] + rest) == trail + lines + [q] + rest;
  }

  lemma LatestIsLast(before: seq<Progress>, trail: seq<Progress>, p0: Progress, st: Progress, whole: seq<Progress>)
    requires Latest(before, trail, p0, st) && Ahead(before, whole, trail, [])
    ensures trail == before + whole && st == Last(p0, whole)
  {
    assert trail + [] == trail;
  }

  lemma DeepEnds(w: Site, p: Progress, restart: bool, cap: nat)
    requires Distinct(w.list)
    ensures var more := DeepTrail(w, p, restart, cap);
      && (Sound(w.list, p) ==> AllFollow(w.list, p, more) && Follows(w.list, p, Last(p, more)))
      && (w.size > 0 ==> (Last(p, more).done <==> p.done || cap == 0 || DeepStart(w, p, restart) <= cap))
      && (w.size > 0 && (cap == 0 || DeepStart(w, p, restart) <= cap) ==>
            (AllSeen(w.list, Last(p, more).seen, 0) <==> KnownBeyond(w, p.seen, DeepStart(w, p, restart))))
  {
    hide DeepFrom, DeepStart, Sound, Follows, AllSeen, KnownBeyond;
    if Sound(w.list, p) {
      DeepSound(w, p, restart, cap);
      StartFollows(w.list, p);
    }
    if w.size > 0 {
      FinishedIff(w, p, restart, cap);
    }
  }
}
