/**
 * The two scans of a site's list as functions: every state that a kill could leave
 * behind, in order, one for each queued line and each saved progress.
 */
module ScanSpec {
  import opened Common
  import opened Scan
  import opened ScanOrder
  import opened StableSort

  /** What a run finds: the list, its page size, the posts' times of creation. */
  datatype Site = Site(list: seq<Pid>, size: nat, time: Pid -> int) {
    function Page(p: nat): seq<Pid>
      requires p >= 1
    {
      PageOf(list, size, p)
    }

    function Pages(): nat { PageTotal(|list|, size) }
  }

  // ---- queueing ----

  /** The states while the unknown ones of some posts are queued, a line each. */
  ghost function Lines(p: Progress, rows: seq<Pid>): (r: seq<Progress>)
    ensures Lined(r, p, Without(rows, p.seen))
  {
    var news := Without(rows, p.seen);
    seq(|news|, i requires 0 <= i < |news| => p.(seen := p.seen + Elems(news[..i + 1])))
  }

  ghost function Last(p: Progress, more: seq<Progress>): Progress {
    if more == [] then p else more[|more| - 1]
  }

  // ---- the deep scan ----

  function LocateFrom(w: Site, anchor: Pid, page: nat, last: int): nat
    requires page >= 1
    decreases last - page
  {
    if page > last then w.Pages()
    else if anchor in w.Page(page) then page
    else LocateFrom(w, anchor, page + 1, last)
  }

  /** The page the anchor is on now, or the oldest page when it is not found. */
  function Locate(w: Site, anchor: Pid, hint: nat): nat
    requires hint >= 1
  {
    LocateFrom(w, anchor, hint, MinInt(w.Pages(), hint + ANCHOR_WINDOW))
  }

  lemma {:induction false} FirstFrom(w: Site, anchor: Pid, page: nat, last: int)
    requires page >= 1
    ensures var at := LocateFrom(w, anchor, page, last);
      if exists p :: page <= p <= last && anchor in w.Page(p) then
        page <= at <= last && anchor in w.Page(at) && forall p :: page <= p < at ==> anchor !in w.Page(p)
      else at == w.Pages()
    decreases last - page
  {
    hide PageOf, PageTotal;
    if page <= last && anchor !in w.Page(page) {
      FirstFrom(w, anchor, page + 1, last);
    }
  }

  /** It is the first page from the hint on, no more than ANCHOR_WINDOW beyond it, that holds the anchor; without one, the oldest page. */
  lemma LocatesFirst(w: Site, anchor: Pid, hint: nat)
    requires hint >= 1
    ensures var at, last := Locate(w, anchor, hint), MinInt(w.Pages(), hint + ANCHOR_WINDOW);
      if exists p :: hint <= p <= last && anchor in w.Page(p) then
        hint <= at <= last && anchor in w.Page(at) && forall p :: hint <= p < at ==> anchor !in w.Page(p)
      else at == w.Pages()
  {
    FirstFrom(w, anchor, hint, MinInt(w.Pages(), hint + ANCHOR_WINDOW));
  }

  function DeepStart(w: Site, p: Progress, restart: bool): nat {
    if !restart && p.anchor.Some? then
      Locate(w, p.anchor.value, if p.page.Some? && p.page.value >= 1 then p.page.value else MaxInt(w.Pages(), 1))
    else w.Pages()
  }

  /** After a page: all of it known, the anchor on its newest post. */
  ghost function AfterPage(w: Site, p: Progress, page: nat): Progress
    requires page >= 1 && w.Page(page) != []
  {
    Progress(p.seen + Elems(w.Page(page)), Some(w.Page(page)[0]), Some(page), p.done)
  }

  /** From a page to the newest one, or until cap pages are read; no cap is zero. */
  ghost function DeepFrom(w: Site, p: Progress, page: nat, cap: nat): seq<Progress>
    decreases page
  {
    if page == 0 then [p.(done := true)]
    else if w.Page(page) == [] then []
    else
      var q := AfterPage(w, p, page);
      Lines(p, SortBy(w.Page(page), w.time)) + [q]
      + if cap == 1 && page > 1 then [] else DeepFrom(w, q, page - 1, if cap == 0 then 0 else cap - 1)
  }

  ghost function DeepTrail(w: Site, p: Progress, restart: bool, cap: nat): seq<Progress> {
    DeepFrom(w, p, DeepStart(w, p, restart), cap)
  }

  // ---- the shallow scan ----

  /** A page with nothing new. */
  predicate Quiet(w: Site, seen: set<Pid>, page: nat)
    requires page >= 1
  {
    forall e :: e in w.Page(page) ==> e in seen
  }

  /** The last page read, from the front on, until two in a row hold nothing new. */
  function LastRead(w: Site, seen: set<Pid>, cap: nat, page: nat, quiet: nat): nat
    requires page >= 1
    decreases w.Pages() - page
  {
    if w.Page(page) == [] then page - 1
    else
      var q := if Quiet(w, seen, page) then quiet + 1 else 0;
      if page >= w.Pages() || q >= STOP_PAGES || (cap != 0 && page >= cap) then page
      else LastRead(w, seen, cap, page + 1, q)
  }

  function PagesRead(w: Site, seen: set<Pid>, cap: nat): nat {
    LastRead(w, seen, cap, 1, 0)
  }

  function Upfront(w: Site, pages: nat): seq<Pid> {
    w.list[..MinInt(pages * w.size, |w.list|)]
  }

  function Found(w: Site, seen: set<Pid>, cap: nat): seq<Pid> {
    Upfront(w, PagesRead(w, seen, cap))
  }

  ghost function ShallowTrail(w: Site, p: Progress, cap: nat): seq<Progress> {
    Lines(p, SortBy(Found(w, p.seen, cap), w.time))
  }

  // ---- what every state promises ----

  /** What every state on disk promises about a list. */
  ghost predicate Sound(list: seq<Pid>, p: Progress) {
    && AnchorOk(list, p)
    && (p.anchor.Some? ==> p.anchor.value in p.seen && p.page.Some? && p.page.value >= 1)
  }

  /** A state later in the same run: nothing forgotten, and only listed posts learnt; finished only when all are known. */
  ghost predicate Follows(list: seq<Pid>, p0: Progress, p: Progress) {
    && Sound(list, p) && p0.seen <= p.seen <= p0.seen + Elems(list)
    && (p0.done ==> p.done) && (p.done ==> p0.done || AllSeen(list, p.seen, 0))
  }

  ghost predicate AllFollow(list: seq<Pid>, p0: Progress, more: seq<Progress>) {
    forall i :: 0 <= i < |more| ==> Follows(list, p0, more[i])
  }

  ghost predicate AllSuffix(list: seq<Pid>, more: seq<Progress>) {
    forall i :: 0 <= i < |more| ==> IsSuffix(list, more[i].seen)
  }

  lemma StartFollows(list: seq<Pid>, p: Progress)
    requires Sound(list, p)
    ensures Follows(list, p, p)
  {
  }

  /** Knowing more of the list breaks no promise. */
  lemma GrowFollows(list: seq<Pid>, p0: Progress, p: Progress, news: set<Pid>)
    requires Follows(list, p0, p) && news <= Elems(list)
    ensures Follows(list, p0, p.(seen := p.seen + news))
  {
  }

  lemma LinesFollow(list: seq<Pid>, p0: Progress, p: Progress, rows: seq<Pid>)
    requires Follows(list, p0, p) && Elems(rows) <= Elems(list)
    ensures AllFollow(list, p0, Lines(p, rows)) && Follows(list, p0, p.(seen := p.seen + Elems(rows)))
  {
    hide Follows;
    var news := Without(rows, p.seen);
    forall i | 0 <= i < |Lines(p, rows)|
      ensures Follows(list, p0, Lines(p, rows)[i])
    {
      assert Elems(news[..i + 1]) <= Elems(rows);
      GrowFollows(list, p0, p, Elems(news[..i + 1]));
    }
    GrowFollows(list, p0, p, Elems(rows));
  }

  /** After the lines, all of the posts are known. */
  lemma LinesEnd(p: Progress, rows: seq<Pid>)
    ensures Last(p, Lines(p, rows)).seen == p.seen + Elems(rows)
  {
    var news := Without(rows, p.seen);
    assert news[..|news|] == news;
    assert p.seen + Elems(news) == p.seen + Elems(rows);
  }

  // ---- the deep scan keeps them ----

  /** Everything on later pages is known. */
  ghost predicate Behind(w: Site, seen: set<Pid>, page: nat) {
    page <= w.Pages() && if w.size > 0 then AllSeen(w.list, seen, page * w.size) else page == w.Pages()
  }

  lemma {:induction false} LocateIs(w: Site, anchor: Pid, page: nat, last: int)
    requires page >= 1 && last <= w.Pages()
    ensures var at := LocateFrom(w, anchor, page, last); at == w.Pages() || (1 <= at <= w.Pages() && anchor in w.Page(at))
    decreases last - page
  {
    if page <= last && anchor !in w.Page(page) {
      LocateIs(w, anchor, page + 1, last);
    }
  }

  /** The deep scan sets out where everything on later pages is known already. */
  lemma StartBehind(w: Site, p: Progress, restart: bool)
    requires Sound(w.list, p)
    ensures Behind(w, p.seen, DeepStart(w, p, restart))
  {
    hide PageOf, PageTotal;
    if w.size > 0 {
      PagesReach(w.list, w.size);
    }
    if !restart && p.anchor.Some? {
      var a := p.anchor.value;
      LocateIs(w, a, p.page.value, MinInt(w.Pages(), p.page.value + ANCHOR_WINDOW));
      var start := DeepStart(w, p, restart);
      if start != w.Pages() {
        var h := OnPage(w.list, w.size, start, a);
        assert AllSeen(w.list, p.seen, h);
        NoPageWithout(w, start);
      }
    }
  }

  lemma NoPageWithout(w: Site, page: nat)
    requires page >= 1
    ensures w.Page(page) != [] ==> w.size > 0
  {
  }

  lemma RowsOfPage(w: Site, page: nat)
    requires page >= 1
    ensures Elems(SortBy(w.Page(page), w.time)) == Elems(w.Page(page)) <= Elems(w.list)
  {
    hide SortBy;
    SortSame(w.Page(page), w.time);
    Sizes(SortBy(w.Page(page), w.time), w.Page(page));
  }

  lemma SeenGrows(list: seq<Pid>, seen: set<Pid>, more: set<Pid>, from: int)
    requires AllSeen(list, seen, from) && seen <= more
    ensures AllSeen(list, more, from)
  {
  }

  lemma AnchorMoves(w: Site, page: nat, p0: Progress, p: Progress)
    requires page >= 1 && w.Page(page) != [] && Distinct(w.list)
    requires Follows(w.list, p0, p) && AllSeen(w.list, p.seen, (page - 1) * w.size)
    ensures Follows(w.list, p0, p.(anchor := Some(w.Page(page)[0]), page := Some(page)))
  {
    hide PageOf;
    PageFacts(w.list, w.size, page);
  }

  /** One page of the deep scan. */
  lemma PageFollows(w: Site, p0: Progress, p: Progress, page: nat)
    requires Distinct(w.list) && Follows(w.list, p0, p) && page >= 1 && Behind(w, p.seen, page) && w.Page(page) != []
    ensures AllFollow(w.list, p0, Lines(p, SortBy(w.Page(page), w.time)))
    ensures Follows(w.list, p0, AfterPage(w, p, page)) && Behind(w, AfterPage(w, p, page).seen, page - 1)
  {
    hide PageOf, PageTotal, AllSeen, Sound, Follows, SortBy;
    var q := p.(seen := p.seen + Elems(w.Page(page)));
    NoPageWithout(w, page);
    RowsOfPage(w, page);
    LinesFollow(w.list, p0, p, SortBy(w.Page(page), w.time));
    SeenGrows(w.list, p.seen, q.seen, page * w.size);
    PageSeen(w.list, w.size, page, q.seen);
    AnchorMoves(w, page, p0, q);
  }

  lemma Finished(w: Site, p0: Progress, p: Progress)
    requires Follows(w.list, p0, p) && Behind(w, p.seen, 0)
    ensures Follows(w.list, p0, p.(done := true)) && AllSeen(w.list, p.seen, 0)
  {
  }

  lemma JoinFollow(list: seq<Pid>, p0: Progress, a: seq<Progress>, q: Progress, b: seq<Progress>)
    requires AllFollow(list, p0, a) && Follows(list, p0, q) && AllFollow(list, p0, b)
    ensures AllFollow(list, p0, a + [q] + b)
  {
    hide Follows;
  }

  /**
   * At every point where the deep scan may be killed the anchor's promise holds; it is
   * marked finished only when every listed post is known.
   */
  lemma {:induction false} DeepFollows(w: Site, p0: Progress, p: Progress, page: nat, cap: nat)
    requires Distinct(w.list) && Follows(w.list, p0, p) && Behind(w, p.seen, page)
    ensures AllFollow(w.list, p0, DeepFrom(w, p, page, cap))
    decreases page
  {
    hide Follows, Behind, AfterPage;
    if page == 0 {
      Finished(w, p0, p);
    } else if w.Page(page) != [] {
      var q := AfterPage(w, p, page);
      PageFollows(w, p0, p, page);
      DeepFollows(w, p0, q, page - 1, if cap == 0 then 0 else cap - 1);
      JoinFollow(w.list, p0, Lines(p, SortBy(w.Page(page), w.time)), q,
        if cap == 1 && page > 1 then [] else DeepFrom(w, q, page - 1, if cap == 0 then 0 else cap - 1));
    }
  }

  lemma DeepSound(w: Site, p: Progress, restart: bool, cap: nat)
    requires Distinct(w.list) && Sound(w.list, p)
    ensures AllFollow(w.list, p, DeepTrail(w, p, restart, cap))
  {
    hide Sound, Follows, Behind, DeepStart;
    StartBehind(w, p, restart);
    StartFollows(w.list, p);
    DeepFollows(w, p, p, DeepStart(w, p, restart), cap);
  }

  lemma UpfrontNext(w: Site, page: nat)
    requires page >= 1
    ensures Upfront(w, page) == Upfront(w, page - 1) + w.Page(page)
  {
    PagesJoin(w.list, w.size, page);
    hide PageOf;
    assert page * w.size >= 0 && (page - 1) * w.size >= 0;
  }

  /** The pages above lo, up to hi. */
  function Stretch(w: Site, lo: nat, hi: nat): seq<Pid> {
    var from, to := MinInt(lo * w.size, |w.list|), MinInt(hi * w.size, |w.list|);
    if 0 <= from <= to then w.list[from..to] else []
  }

  lemma Products(a: nat, b: nat, size: nat)
    requires a < b
    ensures 0 <= a * size <= (b - 1) * size <= b * size == (b - 1) * size + size
  {
    assert 0 <= (b - 1 - a) * size && a * size + (b - 1 - a) * size == (b - 1) * size;
    assert b * size == (b - 1) * size + size;
  }

  lemma StretchNext(w: Site, lo: nat, hi: nat)
    requires lo < hi
    ensures Stretch(w, lo, hi) == Stretch(w, lo, hi - 1) + w.Page(hi)
  {
    Products(lo, hi, w.size);
    var a, b, c := MinInt(lo * w.size, |w.list|), MinInt((hi - 1) * w.size, |w.list|), MinInt(hi * w.size, |w.list|);
    assert Stretch(w, lo, hi) == w.list[a..c] && Stretch(w, lo, hi - 1) == w.list[a..b] && w.Page(hi) == w.list[b..c];
    hide MinInt, PageOf, Stretch;
    assert w.list[a..c] == w.list[a..b] + w.list[b..c];
  }

  lemma StretchNone(w: Site, page: nat)
    ensures Stretch(w, page, page) == []
  {
  }

  /** The page a capped deep scan stops short of. */
  function StopPage(page: nat, cap: nat): nat {
    if cap == 0 || cap >= page then 0 else page - cap
  }

  /** Marked finished exactly when it was, or when no page was left; and exactly the pages read are learnt. */
  ghost predicate Learnt(w: Site, p: Progress, page: nat, stop: nat, r: Progress) {
    r.done == (p.done || stop == 0) && r.seen == p.seen + Elems(Stretch(w, stop, page))
  }

  lemma DeepStep(w: Site, p: Progress, page: nat, cap: nat)
    requires w.size > 0 && 1 <= page <= w.Pages()
    ensures w.Page(page) != []
    ensures var q := AfterPage(w, p, page);
      Last(p, DeepFrom(w, p, page, cap)) ==
      if cap == 1 && page > 1 then q else Last(q, DeepFrom(w, q, page - 1, if cap == 0 then 0 else cap - 1))
  {
    PageNonempty(w.list, w.size, page);
    hide PageOf, PageTotal, Lines, SortBy, AfterPage;
    var q := AfterPage(w, p, page);
    var rest := if cap == 1 && page > 1 then [] else DeepFrom(w, q, page - 1, if cap == 0 then 0 else cap - 1);
    assert DeepFrom(w, p, page, cap) == Lines(p, SortBy(w.Page(page), w.time)) + [q] + rest;
    hide DeepFrom;
    LastJoin(p, Lines(p, SortBy(w.Page(page), w.time)), q, rest);
  }

  lemma LearntNone(w: Site, p: Progress, cap: nat)
    ensures Learnt(w, p, 0, 0, Last(p, DeepFrom(w, p, 0, cap)))
  {
    assert Stretch(w, 0, 0) == [];
  }

  lemma LearntNext(w: Site, p: Progress, page: nat, stop: nat, r: Progress)
    requires stop < page && w.Page(page) != [] && Learnt(w, AfterPage(w, p, page), page - 1, stop, r)
    ensures Learnt(w, p, page, stop, r)
  {
    StretchNext(w, stop, page);
    hide Stretch, PageOf;
  }

  lemma LearntOne(w: Site, p: Progress, page: nat)
    requires page > 1 && w.Page(page) != []
    ensures Learnt(w, p, page, page - 1, AfterPage(w, p, page))
  {
    StretchNext(w, page - 1, page);
    StretchNone(w, page - 1);
    hide Stretch, PageOf;
  }

  /** A deep scan learns exactly the pages from its start to where its cap stops it, and finishes exactly when that is the newest. */
  lemma {:induction false} DeepLearns(w: Site, p: Progress, page: nat, cap: nat)
    requires w.size > 0 && page <= w.Pages()
    ensures Learnt(w, p, page, StopPage(page, cap), Last(p, DeepFrom(w, p, page, cap)))
    decreases page
  {
    hide Learnt, DeepFrom, Last, AfterPage, PageTotal, PageOf;
    if page == 0 {
      LearntNone(w, p, cap);
    } else {
      DeepStep(w, p, page, cap);
      if cap == 1 && page > 1 {
        LearntOne(w, p, page);
      } else {
        DeepLearns(w, AfterPage(w, p, page), page - 1, if cap == 0 then 0 else cap - 1);
        LearntNext(w, p, page, StopPage(page, cap), Last(p, DeepFrom(w, p, page, cap)));
      }
    }
  }

  lemma LastJoin(p: Progress, a: seq<Progress>, q: Progress, b: seq<Progress>)
    ensures Last(p, a + [q] + b) == Last(q, b)
  {
  }

  lemma ShallowRows(w: Site, p: Progress, cap: nat)
    requires Distinct(w.list)
    ensures var found := Found(w, p.seen, cap); var rows := SortBy(found, w.time);
      Elems(rows) == Elems(found) <= Elems(w.list) && Distinct(rows)
  {
    var found := Found(w, p.seen, cap);
    assert found <= w.list && Elems(found) <= Elems(w.list);
    hide Found, SortBy;
    SortSame(found, w.time);
    Sizes(SortBy(found, w.time), found);
    DistinctPermutation(found, SortBy(found, w.time));
  }

  /** The same of the shallow scan, whatever it finds. */
  lemma ShallowSound(w: Site, p: Progress, cap: nat)
    requires Distinct(w.list) && Sound(w.list, p)
    ensures AllFollow(w.list, p, ShallowTrail(w, p, cap))
    ensures Follows(w.list, p, p.(seen := p.seen + Elems(Found(w, p.seen, cap))))
  {
    hide Found, Sound, Follows, SortBy, Lines;
    ShallowRows(w, p, cap);
    StartFollows(w.list, p);
    LinesFollow(w.list, p, p, SortBy(Found(w, p.seen, cap), w.time));
  }

  // ---- when the shallow scan stops ----

  /** A page after which the shallow scan goes no further. */
  ghost predicate Stop(w: Site, seen: set<Pid>, cap: nat, page: nat) {
    || page >= w.Pages() || (cap != 0 && page >= cap)
    || (page >= 2 && Quiet(w, seen, page - 1) && Quiet(w, seen, page))
  }

  lemma {:induction false} ReadsOn(w: Site, seen: set<Pid>, cap: nat, page: nat, quiet: nat)
    requires w.size > 0 && 1 <= page <= w.Pages() && quiet < STOP_PAGES
    requires quiet == 1 <==> page >= 2 && Quiet(w, seen, page - 1)
    ensures var n := LastRead(w, seen, cap, page, quiet);
      page <= n <= w.Pages() && Stop(w, seen, cap, n) && forall g: nat :: page <= g < n ==> !Stop(w, seen, cap, g)
    decreases w.Pages() - page
  {
    hide PageOf, PageTotal;
    PageNonempty(w.list, w.size, page);
    if !Stop(w, seen, cap, page) {
      ReadsOn(w, seen, cap, page + 1, if Quiet(w, seen, page) then quiet + 1 else 0);
    }
  }

  /** It reads to the first page where it has reason to stop; of an empty list it reads none. */
  lemma ReadsToStop(w: Site, seen: set<Pid>, cap: nat)
    requires w.size > 0
    ensures var n := PagesRead(w, seen, cap);
      if w.list == [] then n == 0
      else 1 <= n <= w.Pages() && Stop(w, seen, cap, n) && forall g: nat :: 1 <= g < n ==> !Stop(w, seen, cap, g)
  {
    PagesBound(|w.list|, w.size);
    hide PageTotal;
    if w.list != [] {
      ReadsOn(w, seen, cap, 1, 0);
    }
  }

  ghost predicate KnownBeyond(w: Site, seen: set<Pid>, page: nat) {
    AllSeen(w.list, seen, page * w.size)
  }

  lemma BeyondGrows(w: Site, seen: set<Pid>, lo: nat, hi: nat)
    requires lo <= hi && KnownBeyond(w, seen, lo)
    ensures KnownBeyond(w, seen, hi)
  {
    assert hi * w.size - lo * w.size == (hi - lo) * w.size >= 0;
  }

  lemma AllBeyond(w: Site, seen: set<Pid>, page: nat)
    requires w.size > 0 && page >= w.Pages()
    ensures KnownBeyond(w, seen, page)
  {
    PagesReach(w.list, w.size);
    hide PageTotal;
    assert page * w.size - w.Pages() * w.size == (page - w.Pages()) * w.size >= 0;
  }

  lemma ReadThenAll(w: Site, seen: set<Pid>, page: nat)
    requires Distinct(w.list)
    ensures AllSeen(w.list, seen + Elems(Upfront(w, page)), 0) <==> KnownBeyond(w, seen, page)
  {
    assert page * w.size >= 0;
    var n := MinInt(page * w.size, |w.list|);
    forall j | 0 <= j < |w.list|
      ensures w.list[j] in Upfront(w, page) <==> j < n
    {
      if j < n { assert Upfront(w, page)[j] == w.list[j]; }
    }
  }

  lemma StartAtMost(w: Site, p: Progress, restart: bool)
    ensures DeepStart(w, p, restart) <= w.Pages()
  {
    hide PageOf, PageTotal;
    if !restart && p.anchor.Some? {
      var hint := if p.page.Some? && p.page.value >= 1 then p.page.value else MaxInt(w.Pages(), 1);
      LocateIs(w, p.anchor.value, hint, MinInt(w.Pages(), hint + ANCHOR_WINDOW));
    }
  }

  /**
   * From any state, sound or not: a deep scan is marked finished exactly when it was or
   * its cap allows the pages from where it sets out, and then every listed post is known
   * if and only if, before the scan, all was known behind the page it set out from.
   */
  lemma FinishedIff(w: Site, p: Progress, restart: bool, cap: nat)
    requires w.size > 0 && Distinct(w.list)
    ensures var start, r := DeepStart(w, p, restart), Last(p, DeepTrail(w, p, restart, cap));
      && (r.done <==> p.done || cap == 0 || start <= cap)
      && (cap == 0 || start <= cap ==> (AllSeen(w.list, r.seen, 0) <==> KnownBeyond(w, p.seen, start)))
  {
    hide PageOf, PageTotal, DeepStart, DeepFrom, Last, AllSeen, KnownBeyond;
    var start := DeepStart(w, p, restart);
    StartAtMost(w, p, restart);
    DeepLearns(w, p, start, cap);
    ReadThenAll(w, p.seen, start);
    WholeStretch(w, start);
  }

  lemma WholeStretch(w: Site, hi: nat)
    ensures Stretch(w, 0, hi) == Upfront(w, hi)
  {
    assert hi * w.size >= 0;
  }

  /**
   * Whatever the order of the list and whatever is known of it: a shallow scan makes all
   * of it known if and only if everything is known behind the pages its cap allows and
   * behind every two pages in a row that hold nothing new.
   */
  lemma LearnsAll(w: Site, seen: set<Pid>, cap: nat)
    requires w.size > 0 && Distinct(w.list)
    ensures AllSeen(w.list, seen + Elems(Found(w, seen, cap)), 0) <==>
            && (cap != 0 ==> KnownBeyond(w, seen, cap))
            && forall g: nat :: g >= 2 && Quiet(w, seen, g - 1) && Quiet(w, seen, g) ==> KnownBeyond(w, seen, g)
  {
    hide PageOf, PageTotal;
    if w.list != [] {
      ReadsToStop(w, seen, cap);
      hide LastRead;
      var n := PagesRead(w, seen, cap);
      ReadThenAll(w, seen, n);
      if KnownBeyond(w, seen, n) {
        StopsBefore(w, seen, cap, n);
      } else if n >= w.Pages() {
        AllBeyond(w, seen, n);
      } else if cap != 0 && n >= cap && KnownBeyond(w, seen, cap) {
        BeyondGrows(w, seen, cap, n);
      }
    }
  }

  lemma StopsBefore(w: Site, seen: set<Pid>, cap: nat, n: nat)
    requires n >= 1 && KnownBeyond(w, seen, n) && forall g: nat :: 1 <= g < n ==> !Stop(w, seen, cap, g)
    ensures cap != 0 ==> KnownBeyond(w, seen, cap)
    ensures forall g: nat :: g >= 2 && Quiet(w, seen, g - 1) && Quiet(w, seen, g) ==> KnownBeyond(w, seen, g)
  {
    hide PageOf, PageTotal, KnownBeyond, Quiet;
    if cap != 0 {
      assert cap < n ==> Stop(w, seen, cap, cap);
      BeyondGrows(w, seen, n, MaxInt(n, cap));
    }
    forall g: nat | g >= 2 && Quiet(w, seen, g - 1) && Quiet(w, seen, g)
      ensures KnownBeyond(w, seen, g)
    {
      assert g < n ==> Stop(w, seen, cap, g);
      BeyondGrows(w, seen, n, MaxInt(n, g));
    }
  }

  // ---- the known posts being the older part ----

  /** A page with nothing new lies wholly in the older part. */
  lemma QuietBeyond(w: Site, seen: set<Pid>, page: nat, k: nat)
    requires page >= 1 && Quiet(w, seen, page) && Suffix(w.list, seen, k) && w.size > 0
    ensures k <= page * w.size
  {
    PageFacts(w.list, w.size, page);
    if w.Page(page) != [] {
      assert w.Page(page)[0] in seen;
    } else {
      assert page * w.size == (page - 1) * w.size + w.size;
    }
  }

  lemma SuffixBeyond(w: Site, seen: set<Pid>, page: nat, k: nat)
    requires Suffix(w.list, seen, k)
    ensures KnownBeyond(w, seen, page) <==> k <= page * w.size
  {
    assert page * w.size >= 0;
    if page * w.size < k {
      assert w.list[page * w.size] !in seen;
    }
  }

  /** With the older part known, an uncapped shallow scan learns the rest. */
  lemma SuffixLearns(w: Site, seen: set<Pid>, cap: nat, k: nat)
    requires w.size > 0 && Distinct(w.list) && Suffix(w.list, seen, k)
    ensures AllSeen(w.list, seen + Elems(Found(w, seen, cap)), 0) <==> cap == 0 || k <= cap * w.size
  {
    LearnsAll(w, seen, cap);
    hide LastRead, PageOf, Quiet, KnownBeyond, Suffix;
    SuffixBeyond(w, seen, cap, k);
    forall g: nat | g >= 2 && Quiet(w, seen, g)
      ensures KnownBeyond(w, seen, g)
    {
      QuietBeyond(w, seen, g, k);
      SuffixBeyond(w, seen, g, k);
    }
  }

  /** What is read in front of the older part keeps it the older part only when all of the rest is read, or nothing. */
  lemma ReadKeepsSuffix(list: seq<Pid>, seen: set<Pid>, k: nat, n: nat)
    requires Distinct(list) && Suffix(list, seen, k) && n <= |list|
    ensures IsSuffix(list, seen + Elems(list[..n])) <==> n == 0 || n >= k
  {
    var after := seen + Elems(list[..n]);
    forall j | 0 <= j < |list|
      ensures list[j] in after <==> j < n || j >= k
    {
      if j < n { assert list[..n][j] == list[j]; }
    }
    if n == 0 {
      assert Suffix(list, after, k);
    } else if n >= k {
      assert Suffix(list, after, 0);
    } else {
      forall h: nat
        ensures !Suffix(list, after, h)
      {
        assert list[0] in after && list[n] !in after;
      }
    }
  }

  /**
   * Before a shallow scan, when the known posts are the list's older part: they are so
   * after it if and only if its cap allows the pages that hold the k new ones.
   */
  lemma CapLeavesGap(w: Site, seen: set<Pid>, cap: nat, k: nat)
    requires w.size > 0 && Distinct(w.list) && Suffix(w.list, seen, k)
    ensures IsSuffix(w.list, seen + Elems(Found(w, seen, cap))) <==> cap == 0 || k <= cap * w.size
  {
    SuffixLearns(w, seen, cap, k);
    SuffixBound(w.list, seen, k);
    if w.list != [] {
      ReadsToStop(w, seen, cap);
      hide LastRead, PageTotal, Suffix, IsSuffix, AllSeen, Stop;
      ReadIsSuffix(w, seen, PagesRead(w, seen, cap), k);
    } else {
      assert Found(w, seen, cap) == [];
      assert seen + Elems(Found(w, seen, cap)) == seen;
    }
  }

  lemma ReadIsSuffix(w: Site, seen: set<Pid>, n: nat, k: nat)
    requires w.size > 0 && Distinct(w.list) && Suffix(w.list, seen, k) && n >= 1 && w.list != []
    ensures var after := seen + Elems(Upfront(w, n)); IsSuffix(w.list, after) <==> AllSeen(w.list, after, 0)
  {
    assert (n - 1) * w.size >= 0;
    assert n * w.size == (n - 1) * w.size + w.size;
    ReadThenAll(w, seen, n);
    SuffixBeyond(w, seen, n, k);
    SuffixBound(w.list, seen, k);
    hide KnownBeyond, AllSeen, Suffix, IsSuffix;
    ReadKeepsSuffix(w.list, seen, k, MinInt(n * w.size, |w.list|));
  }

  lemma SuffixBound(list: seq<Pid>, seen: set<Pid>, k: nat)
    requires Suffix(list, seen, k)
    ensures k <= |list|
  {
  }

  // ---- killed while queueing ----

  /**
   * When the known posts are the list's older part: they are so wherever a shallow scan
   * may be killed if and only if its cap allows the k new posts and these stand newest
   * first by their time of creation.
   */
  lemma ShallowSuffix(w: Site, p: Progress, cap: nat, k: nat)
    requires Distinct(w.list) && Suffix(w.list, p.seen, k) && w.size > 0
    ensures AllSuffix(w.list, ShallowTrail(w, p, cap)) <==> (cap == 0 || k <= cap * w.size) && NewestFirst(w.list[..k], w.time)
  {
    var found := Found(w, p.seen, cap);
    LinesAre(p, SortBy(found, w.time));
    if cap == 0 || k <= cap * w.size {
      FoundCovers(w, p.seen, cap, k);
      hide Found, SortBy, Suffix, IsSuffix, NewestFirst, Lines, Without, Lined;
      assert found == w.list[0..|found|];
      StretchIff(w.list, p, k, 0, |found|, ShallowTrail(w, p, cap), w.time);
      assert w.list[0..k] == w.list[..k];
    } else {
      FoundShort(w, p.seen, cap, k);
      hide Found, SortBy, Suffix, IsSuffix, NewestFirst, Lines, Without, Lined;
      ShortBreaks(w, p, k, |found|, ShallowTrail(w, p, cap));
    }
  }

  /** A cap that does not allow them all leaves some new posts unread, but not all. */
  lemma FoundShort(w: Site, seen: set<Pid>, cap: nat, k: nat)
    requires Distinct(w.list) && Suffix(w.list, seen, k) && w.size > 0 && 0 < cap && cap * w.size < k
    ensures var found := Found(w, seen, cap); 0 < |found| < k && found == w.list[..|found|]
  {
    SuffixLearns(w, seen, cap, k);
    SuffixBound(w.list, seen, k);
    Products(0, cap, w.size);
    ReadsToStop(w, seen, cap);
    hide LastRead, PageTotal, AllSeen, Suffix, Stop;
    var n := PagesRead(w, seen, cap);
    ReadThenAll(w, seen, n);
    SuffixBeyond(w, seen, n, k);
    hide KnownBeyond;
    Products(0, n, w.size);
  }

  lemma FirstLine(list: seq<Pid>, p: Progress, news: seq<Pid>, more: seq<Progress>) returns (j: nat)
    requires Lined(more, p, news) && news != [] && forall x :: x in news ==> x in list
    ensures more != [] && j < |list| && more[0].seen == p.seen + {list[j]} && list[j] == news[0]
  {
    assert news[0] in news && news[0] in list;
    j :| 0 <= j < |list| && list[j] == news[0];
    assert more[0].seen == p.seen + Elems(news[..1]);
    assert news[..1] == [news[0]];
    assert Elems(news[..1]) == {news[0]};
  }

  /** Then the first line already leaves a gap. */
  lemma ShortBreaks(w: Site, p: Progress, k: nat, n: nat, more: seq<Progress>)
    requires Distinct(w.list) && Suffix(w.list, p.seen, k) && 0 < n < k
    requires Lined(more, p, Without(SortBy(w.list[..n], w.time), p.seen))
    ensures !AllSuffix(w.list, more)
  {
    SuffixBound(w.list, p.seen, k);
    AllNew(w, p.seen, k, n);
    var news := SortBy(w.list[..n], w.time);
    SortSame(w.list[..n], w.time);
    hide SortBy, Without, Suffix, Lined, IsSuffix;
    Sizes(news, w.list[..n]);
    var j := FirstLine(w.list[..n], p, news, more);
    assert w.list[..n][j] == w.list[j];
    FirstGap(w.list, p.seen, k, n, j);
  }

  lemma AllNew(w: Site, seen: set<Pid>, k: nat, n: nat)
    requires Suffix(w.list, seen, k) && n <= k
    ensures Without(SortBy(w.list[..n], w.time), seen) == SortBy(w.list[..n], w.time)
  {
    hide SortBy, Without;
    WithoutSort(w.list[..n], w.time, seen);
    WithoutAll(w.list[..n], seen);
  }

  lemma FirstGap(list: seq<Pid>, seen: set<Pid>, k: nat, n: nat, j: nat)
    requires Distinct(list) && Suffix(list, seen, k) && j < n < k
    ensures !IsSuffix(list, seen + {list[j]})
  {
    var after := seen + {list[j]};
    forall h: nat
      ensures !Suffix(list, after, h)
    {
      assert list[j] in after && list[n] !in after;
    }
  }

  lemma LinesAre(p: Progress, rows: seq<Pid>)
    ensures Lined(Lines(p, rows), p, Without(rows, p.seen))
  {
  }

  lemma FoundCovers(w: Site, seen: set<Pid>, cap: nat, k: nat)
    requires Distinct(w.list) && Suffix(w.list, seen, k)
    requires w.size > 0 && (cap == 0 || k <= cap * w.size)
    ensures k <= |Found(w, seen, cap)| && Found(w, seen, cap) <= w.list
  {
    SuffixLearns(w, seen, cap, k);
    var n := PagesRead(w, seen, cap);
    assert n * w.size >= 0;
    hide LastRead;
    ReadThenAll(w, seen, n);
    SuffixBeyond(w, seen, n, k);
    SuffixBound(w.list, seen, k);
  }

  lemma PageIs(w: Site, page: nat)
    requires page >= 1 && w.Page(page) != []
    ensures 0 <= (page - 1) * w.size < |w.list| && w.Page(page) == w.list[(page - 1) * w.size..MinInt(page * w.size, |w.list|)]
  {
    PageFacts(w.list, w.size, page);
  }

  /** The new posts of a page stand newest first. */
  ghost predicate PageInOrder(w: Site, k: nat, page: nat) {
    NewestFirst(NewOf(w, k, page), w.time)
  }

  function NewOf(w: Site, k: nat, page: nat): seq<Pid> {
    var lo := (page - 1) * w.size;
    if 0 <= lo <= k <= |w.list| && lo <= page * w.size then w.list[lo..MinInt(k, page * w.size)] else []
  }

  lemma PageSuffix(w: Site, p: Progress, page: nat, k: nat)
    requires Distinct(w.list) && Suffix(w.list, p.seen, k)
    requires page >= 1 && w.Page(page) != [] && k <= page * w.size
    ensures AllSuffix(w.list, Lines(p, SortBy(w.Page(page), w.time))) <==> PageInOrder(w, k, page)
    ensures Suffix(w.list, AfterPage(w, p, page).seen, MinInt((page - 1) * w.size, k))
  {
    PageIs(w, page);
    SuffixBound(w.list, p.seen, k);
    hide PageOf, Suffix, SortBy, NewestFirst;
    var lo, hi := (page - 1) * w.size, MinInt(page * w.size, |w.list|);
    assert w.list[lo..MaxInt(lo, k)] == NewOf(w, k, page);
    StretchIff(w.list, p, k, lo, hi, Lines(p, SortBy(w.Page(page), w.time)), w.time);
  }

  /** Later pages cut from the known part change nothing of what is new on a page. */
  lemma SameNew(w: Site, k: nat, page: nat, g: nat)
    requires 1 <= g < page && k <= |w.list|
    ensures var h := MinInt((page - 1) * w.size, k); h >= 0 && NewOf(w, h, g) == NewOf(w, k, g)
  {
    Products(g - 1, g, w.size);
    Products(g, page, w.size);
    SameCut(w.list, (g - 1) * w.size, g * w.size, (page - 1) * w.size, k);
  }

  lemma SameCut(list: seq<Pid>, lo: nat, hi: nat, top: nat, k: nat)
    requires lo <= hi <= top && k <= |list|
    ensures var h := MinInt(top, k); lo <= h <==> lo <= k
    ensures var h := MinInt(top, k); lo <= k ==> list[lo..MinInt(h, hi)] == list[lo..MinInt(k, hi)]
  {
  }

  lemma JoinSuffix(list: seq<Pid>, a: seq<Progress>, q: Progress, b: seq<Progress>)
    requires IsSuffix(list, q.seen)
    ensures AllSuffix(list, a + [q] + b) <==> AllSuffix(list, a) && AllSuffix(list, b)
  {
    hide IsSuffix;
    var s := a + [q] + b;
    assert forall i :: 0 <= i < |a| ==> s[i] == a[i];
    assert forall i :: 0 <= i < |b| ==> s[|a| + 1 + i] == b[i];
    assert s[|a|] == q;
  }

  /** The pages a deep scan reads under its cap have their new posts newest first. */
  ghost predicate ReadInOrder(w: Site, k: nat, page: nat, cap: nat) {
    forall g: nat :: StopPage(page, cap) < g <= page ==> PageInOrder(w, k, g)
  }

  lemma InOrderSame(w: Site, k: nat, page: nat, h: nat, g: nat)
    requires 1 <= g < page && k <= |w.list| && 0 <= (page - 1) * w.size && h == MinInt((page - 1) * w.size, k)
    ensures PageInOrder(w, h, g) <==> PageInOrder(w, k, g)
  {
    SameNew(w, k, page, g);
    hide NewOf, NewestFirst;
  }

  lemma InOrderNext(w: Site, k: nat, page: nat, cap: nat, h: nat)
    requires page >= 1 && k <= |w.list| && 0 <= (page - 1) * w.size && h == MinInt((page - 1) * w.size, k)
    ensures var rest := (cap == 1 && page > 1) || ReadInOrder(w, h, page - 1, if cap == 0 then 0 else cap - 1);
      ReadInOrder(w, k, page, cap) <==> (PageInOrder(w, k, page) && rest)
  {
    hide PageInOrder, MinInt;
    forall g: nat | 1 <= g < page
      ensures PageInOrder(w, h, g) <==> PageInOrder(w, k, g)
    {
      InOrderSame(w, k, page, h, g);
    }
  }

  /**
   * A deep scan forced when the known posts are the older part keeps them so wherever it
   * may be killed if and only if every page it reads has its new posts newest first; at
   * the end of each page they are so in any case.
   */
  lemma {:induction false} DeepSuffix(w: Site, p: Progress, page: nat, cap: nat, k: nat)
    requires Distinct(w.list) && Suffix(w.list, p.seen, k) && w.size > 0
    requires page <= w.Pages() && k <= page * w.size
    ensures AllSuffix(w.list, DeepFrom(w, p, page, cap)) <==> ReadInOrder(w, k, page, cap)
    ensures IsSuffix(w.list, Last(p, DeepFrom(w, p, page, cap)).seen)
    decreases page
  {
    SuffixBound(w.list, p.seen, k);
    hide PageOf, PageTotal, Suffix, AfterPage, ReadInOrder, PageInOrder, Last;
    assert IsSuffix(w.list, p.seen);
    if page == 0 {
      DeepNone(w, p, cap, k);
    } else {
      DeepStep(w, p, page, cap);
      var q := AfterPage(w, p, page);
      PageSuffix(w, p, page, k);
      Products(0, page, w.size);
      var h := MinInt((page - 1) * w.size, k);
      InOrderNext(w, k, page, cap, h);
      var next := if cap == 0 then 0 else cap - 1;
      assert IsSuffix(w.list, q.seen);
      DeepSuffix(w, q, page - 1, next, h);
      var a, b := Lines(p, SortBy(w.Page(page), w.time)), if cap == 1 && page > 1 then [] else DeepFrom(w, q, page - 1, next);
      assert DeepFrom(w, p, page, cap) == a + [q] + b;
      hide DeepFrom, IsSuffix, AllSuffix, SortBy, Lines;
      JoinSuffix(w.list, a, q, b);
      NoneSuffix(w.list);
    }
  }

  lemma NoneSuffix(list: seq<Pid>)
    ensures AllSuffix(list, [])
  {
  }

  lemma DeepNone(w: Site, p: Progress, cap: nat, k: nat)
    requires IsSuffix(w.list, p.seen)
    ensures AllSuffix(w.list, DeepFrom(w, p, 0, cap)) && ReadInOrder(w, k, 0, cap)
    ensures Last(p, DeepFrom(w, p, 0, cap)).seen == p.seen
  {
    hide IsSuffix;
  }
}
