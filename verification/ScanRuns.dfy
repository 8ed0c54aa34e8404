/**
 * Scanning over many runs, each killed anywhere, the list changing between them, other
 * lists being scanned into the same store.
 */
module ScanRuns {
  import opened Common
  import opened Scan
  import opened ScanOrder
  import opened ScanSpec
  import opened StableSort

  /** A deep scan: while none has finished, or forced; killed before its first save, or at any state. */
  ghost predicate DeepRun(w: Site, p0: Progress, p: Progress) {
    p == p0 || exists restart, cap :: (restart || !p0.done) && p in DeepTrail(w, p0, restart, cap)
  }

  /** A shallow scan, capped or not, killed or not. */
  ghost predicate ShallowRun(w: Site, p0: Progress, p: Progress) {
    exists cap :: p in ShallowTrail(w, p0, cap)
  }

  /**
   * Run i takes starts[i] to ends[i] on sites[i]. Before the next one the list changes,
   * and the store may learn posts from other lists.
   */
  ghost predicate History(sites: seq<Site>, starts: seq<Progress>, ends: seq<Progress>) {
    && |starts| == |ends| == |sites| > 0
    && starts[0].anchor == None && !starts[0].done
    && (forall i :: 0 <= i < |sites| ==> Distinct(sites[i].list))
    && (forall i :: 0 <= i < |sites| ==> DeepRun(sites[i], starts[i], ends[i]) || ShallowRun(sites[i], starts[i], ends[i]))
    && (forall i :: 0 < i < |sites| ==> Between(sites[i - 1].list, sites[i].list, ends[i - 1], starts[i]))
  }

  ghost predicate Between(list: seq<Pid>, next: seq<Pid>, p: Progress, q: Progress) {
    Evolves(list, next, p.anchor) && p.seen <= q.seen && q == p.(seen := q.seen)
  }

  lemma InFollows(list: seq<Pid>, p0: Progress, more: seq<Progress>, p: Progress)
    requires AllFollow(list, p0, more) && p in more
    ensures Follows(list, p0, p)
  {
  }

  lemma RunFollows(w: Site, p0: Progress, p: Progress)
    requires Distinct(w.list) && Sound(w.list, p0) && (DeepRun(w, p0, p) || ShallowRun(w, p0, p))
    ensures Follows(w.list, p0, p)
  {
    hide Sound, Follows, DeepTrail, ShallowTrail, AllFollow;
    StartFollows(w.list, p0);
    if ShallowRun(w, p0, p) {
      var cap :| p in ShallowTrail(w, p0, cap);
      ShallowSound(w, p0, cap);
      InFollows(w.list, p0, ShallowTrail(w, p0, cap), p);
    } else if p != p0 {
      var restart, cap :| p in DeepTrail(w, p0, restart, cap);
      DeepSound(w, p0, restart, cap);
      InFollows(w.list, p0, DeepTrail(w, p0, restart, cap), p);
    }
  }

  lemma BetweenSound(list: seq<Pid>, next: seq<Pid>, p: Progress, q: Progress)
    requires Sound(list, p) && Between(list, next, p, q)
    ensures Sound(next, q)
  {
    hide Evolves;
    AnchorEvolves(list, next, p);
  }

  /**
   * Over any runs, whatever other lists feed the store, as long as the anchor does not
   * move to the front: at the start and at the end of every run, killed or not, all that
   * is at or behind the anchor is known, nothing is forgotten, and the run is marked
   * finished only if it was, or if all of its list is known.
   */
  lemma {:induction false} AlwaysSound(sites: seq<Site>, starts: seq<Progress>, ends: seq<Progress>, i: nat)
    requires History(sites, starts, ends) && i < |sites|
    ensures Sound(sites[i].list, starts[i]) && Follows(sites[i].list, starts[i], ends[i])
  {
    hide DeepRun, ShallowRun, Between, Follows, Distinct;
    if i > 0 {
      AlwaysSound(sites, starts, ends, i - 1);
      FollowsSound(sites[i - 1].list, starts[i - 1], ends[i - 1]);
      hide Sound;
      BetweenSound(sites[i - 1].list, sites[i].list, ends[i - 1], starts[i]);
    }
    RunFollows(sites[i], starts[i], ends[i]);
  }

  lemma FollowsSound(list: seq<Pid>, p0: Progress, p: Progress)
    requires Follows(list, p0, p)
    ensures Sound(list, p)
  {
  }

  // ---- lists scanned into a store of their own ----

  ghost predicate Covers(w: Site, seen: set<Pid>, cap: nat) {
    cap == 0 || forall k: nat :: Suffix(w.list, seen, k) ==> k <= cap * w.size
  }

  /** The posts not known stand newest first. */
  ghost predicate NewInOrder(w: Site, seen: set<Pid>) {
    forall k: nat :: Suffix(w.list, seen, k) ==> NewestFirst(w.list[..k], w.time)
  }

  /**
   * A run after a deep scan has finished: it ended at its cap or through, a shallow one's
   * cap allowing every new post; or it was killed anywhere, the new posts standing newest
   * first. Before that any deep scan will do.
   */
  ghost predicate OrderlyRun(w: Site, p0: Progress, p: Progress) {
    || p == p0
    || (!p0.done && DeepRun(w, p0, p))
    || (p0.done && exists cap :: p == Last(p0, DeepTrail(w, p0, true, cap)))
    || (p0.done && NewInOrder(w, p0.seen) && exists cap :: p in DeepTrail(w, p0, true, cap))
    || (p0.done && exists cap :: Covers(w, p0.seen, cap) && p == Last(p0, ShallowTrail(w, p0, cap)))
    || (p0.done && NewInOrder(w, p0.seen) && exists cap :: Covers(w, p0.seen, cap) && p in ShallowTrail(w, p0, cap))
  }

  /** Nothing but new posts comes in front, and no other list teaches the store a post of this one. */
  ghost predicate Alone(list: seq<Pid>, next: seq<Pid>, p: Progress, q: Progress) {
    NewInFront(list, next, q.seen) && forall x :: x in list && x in q.seen ==> x in p.seen
  }

  ghost predicate Orderly(sites: seq<Site>, starts: seq<Progress>, ends: seq<Progress>) {
    && History(sites, starts, ends)
    && (forall i :: 0 <= i < |sites| ==> sites[i].size > 0 && OrderlyRun(sites[i], starts[i], ends[i]))
    && (forall i :: 0 < i < |sites| ==> Alone(sites[i - 1].list, sites[i].list, ends[i - 1], starts[i]))
  }

  lemma DoneSuffix(list: seq<Pid>, seen: set<Pid>)
    requires AllSeen(list, seen, 0)
    ensures IsSuffix(list, seen)
  {
    assert Suffix(list, seen, 0);
  }

  lemma InSuffix(list: seq<Pid>, more: seq<Progress>, p: Progress)
    requires AllSuffix(list, more) && p in more
    ensures IsSuffix(list, p.seen)
  {
  }

  lemma ShallowEnd(w: Site, p: Progress, cap: nat)
    requires Distinct(w.list)
    ensures Last(p, ShallowTrail(w, p, cap)).seen == p.seen + Elems(Found(w, p.seen, cap))
  {
    ShallowRows(w, p, cap);
    hide Found, SortBy;
    LinesEnd(p, SortBy(Found(w, p.seen, cap), w.time));
  }

  lemma ShallowRunSuffix(w: Site, p0: Progress, p: Progress, cap: nat)
    requires Distinct(w.list) && w.size > 0 && IsSuffix(w.list, p0.seen) && Covers(w, p0.seen, cap)
    requires p == Last(p0, ShallowTrail(w, p0, cap)) || (NewInOrder(w, p0.seen) && p in ShallowTrail(w, p0, cap))
    ensures IsSuffix(w.list, p.seen)
  {
    var k: nat :| Suffix(w.list, p0.seen, k);
    assert cap == 0 || k <= cap * w.size;
    assert NewInOrder(w, p0.seen) ==> NewestFirst(w.list[..k], w.time);
    hide Suffix, ShallowTrail, NewestFirst, IsSuffix, Last, Covers, Found, AllSuffix;
    if NewInOrder(w, p0.seen) && p in ShallowTrail(w, p0, cap) {
      ShallowSuffix(w, p0, cap, k);
      InSuffix(w.list, ShallowTrail(w, p0, cap), p);
    } else {
      ShallowEnd(w, p0, cap);
      CapLeavesGap(w, p0.seen, cap, k);
    }
  }

  lemma DeepRunSuffix(w: Site, p0: Progress, p: Progress, cap: nat)
    requires Distinct(w.list) && w.size > 0 && IsSuffix(w.list, p0.seen)
    requires p == Last(p0, DeepTrail(w, p0, true, cap)) || (NewInOrder(w, p0.seen) && p in DeepTrail(w, p0, true, cap))
    ensures IsSuffix(w.list, p.seen)
  {
    var k: nat :| Suffix(w.list, p0.seen, k);
    assert NewInOrder(w, p0.seen) ==> NewestFirst(w.list[..k], w.time);
    SuffixBound(w.list, p0.seen, k);
    PagesReach(w.list, w.size);
    hide Suffix, DeepFrom, NewestFirst, PageTotal, IsSuffix, Last, AllSuffix;
    DeepSuffix(w, p0, w.Pages(), cap, k);
    if NewInOrder(w, p0.seen) && p in DeepTrail(w, p0, true, cap) {
      AllInOrder(w, k, w.Pages(), cap);
      InSuffix(w.list, DeepTrail(w, p0, true, cap), p);
    }
  }

  /** When the new posts stand newest first, those of each page do. */
  lemma AllInOrder(w: Site, k: nat, page: nat, cap: nat)
    requires k <= |w.list| && NewestFirst(w.list[..k], w.time)
    ensures ReadInOrder(w, k, page, cap)
  {
    forall g: nat
      ensures PageInOrder(w, k, g)
    {
      var lo, hi := (g - 1) * w.size, MinInt(k, g * w.size);
      if 0 <= lo <= k && lo <= g * w.size {
        assert NewOf(w, k, g) == w.list[..k][lo..hi];
      }
    }
  }

  lemma OrderlySuffix(w: Site, p0: Progress, p: Progress)
    requires Distinct(w.list) && w.size > 0 && p0.done && OrderlyRun(w, p0, p) && IsSuffix(w.list, p0.seen)
    ensures IsSuffix(w.list, p.seen)
  {
    hide IsSuffix, DeepTrail, ShallowTrail, Covers, NewInOrder, Last;
    if p == p0 {
    } else if cap :| p == Last(p0, DeepTrail(w, p0, true, cap)) {
      DeepRunSuffix(w, p0, p, cap);
    } else if cap :| NewInOrder(w, p0.seen) && p in DeepTrail(w, p0, true, cap) {
      DeepRunSuffix(w, p0, p, cap);
    } else if cap :| Covers(w, p0.seen, cap) && p == Last(p0, ShallowTrail(w, p0, cap)) {
      ShallowRunSuffix(w, p0, p, cap);
    } else {
      var cap :| NewInOrder(w, p0.seen) && Covers(w, p0.seen, cap) && p in ShallowTrail(w, p0, cap);
      ShallowRunSuffix(w, p0, p, cap);
    }
  }

  /** Once a run is marked finished, the known posts are the older part of its list. */
  lemma RunSuffix(w: Site, p0: Progress, p: Progress)
    requires Distinct(w.list) && w.size > 0 && Follows(w.list, p0, p) && OrderlyRun(w, p0, p)
    requires p0.done ==> IsSuffix(w.list, p0.seen)
    ensures p.done ==> IsSuffix(w.list, p.seen)
  {
    hide IsSuffix, OrderlyRun, AllSeen;
    if p.done && !p0.done {
      DoneSuffix(w.list, p.seen);
    } else if p.done {
      OrderlySuffix(w, p0, p);
    }
  }

  lemma AloneSuffix(list: seq<Pid>, next: seq<Pid>, p: Progress, q: Progress)
    requires Alone(list, next, p, q) && p.seen <= q.seen && IsSuffix(list, p.seen)
    ensures IsSuffix(next, q.seen)
  {
    hide NewInFront;
    var k: nat :| Suffix(list, p.seen, k);
    assert Suffix(list, q.seen, k);
    SuffixEvolves(list, next, q.seen);
  }

  /**
   * Over any orderly runs, once a deep scan has finished the known posts are the older
   * part of the list whenever a run starts, so the next uncapped shallow scan makes them
   * all of it.
   */
  lemma {:induction false} AlwaysOlderPart(sites: seq<Site>, starts: seq<Progress>, ends: seq<Progress>, i: nat)
    requires Orderly(sites, starts, ends) && i < |sites|
    ensures starts[i].done ==> IsSuffix(sites[i].list, starts[i].seen)
    ensures starts[i].done ==> AllSeen(sites[i].list, starts[i].seen + Elems(Found(sites[i], starts[i].seen, 0)), 0)
    ensures ends[i].done ==> IsSuffix(sites[i].list, ends[i].seen)
  {
    hide DeepRun, OrderlyRun, ShallowRun, Follows, Distinct, IsSuffix, Alone, AllSeen, Sound, Found;
    AlwaysSound(sites, starts, ends, i);
    if i > 0 {
      AlwaysOlderPart(sites, starts, ends, i - 1);
      if starts[i].done {
        AloneSuffix(sites[i - 1].list, sites[i].list, ends[i - 1], starts[i]);
      }
    }
    if starts[i].done {
      LearnsRest(sites[i], starts[i].seen);
    }
    RunSuffix(sites[i], starts[i], ends[i]);
  }

  lemma LearnsRest(w: Site, seen: set<Pid>)
    requires Distinct(w.list) && w.size > 0 && IsSuffix(w.list, seen)
    ensures AllSeen(w.list, seen + Elems(Found(w, seen, 0)), 0)
  {
    var k: nat :| Suffix(w.list, seen, k);
    hide Suffix, AllSeen, Found;
    SuffixLearns(w, seen, 0, k);
  }

  // ---- where the hypotheses fail ----

  /**
   * What a capped shallow scan leaves out is found by a later uncapped one on the same
   * list if and only if the cap was below the number of quiet pages that stop a scan.
   */
  lemma GapHidden(w: Site, seen: set<Pid>, cap: nat, k: nat)
    requires w.size > 0 && Distinct(w.list) && Suffix(w.list, seen, k) && 0 < cap && cap * w.size < k
    ensures var after := seen + Elems(Found(w, seen, cap));
      AllSeen(w.list, after + Elems(Found(w, after, 0)), 0) <==> cap < STOP_PAGES
  {
    var after := seen + Elems(Found(w, seen, cap));
    GapIs(w, seen, cap, k);
    SuffixBound(w.list, seen, k);
    hide Found, PageOf, PageTotal, Suffix, Quiet, KnownBeyond, Gap, AllSeen;
    LearnsAll(w, after, 0);
    if cap >= 2 {
      QuietUpto(w, after, cap, k, 1);
      QuietUpto(w, after, cap, k, 2);
      GapBehind(w, after, cap, k, 2);
    } else {
      forall g: nat | g >= 2 && Quiet(w, after, g - 1) && Quiet(w, after, g)
        ensures KnownBeyond(w, after, g)
      {
        QuietLate(w, after, k, g);
      }
    }
  }

  /** After it, exactly the first cap pages and the older part are known. */
  ghost predicate Gap(w: Site, after: set<Pid>, cap: nat, k: nat) {
    forall j :: 0 <= j < |w.list| ==> (w.list[j] in after <==> j < cap * w.size || j >= k)
  }

  lemma GapIs(w: Site, seen: set<Pid>, cap: nat, k: nat)
    requires w.size > 0 && Distinct(w.list) && Suffix(w.list, seen, k) && 0 < cap && cap * w.size < k
    ensures PagesRead(w, seen, cap) == cap && Gap(w, seen + Elems(Found(w, seen, cap)), cap, k)
  {
    ReadsToStop(w, seen, cap);
    hide LastRead, PageTotal, PageOf;
    var n := PagesRead(w, seen, cap);
    NoStopBefore(w, seen, cap, k, n);
    assert cap * w.size >= 0;
    forall j | 0 <= j < |w.list|
      ensures w.list[j] in Upfront(w, cap) <==> j < cap * w.size
    {
      if j < cap * w.size { assert Upfront(w, cap)[j] == w.list[j]; }
    }
  }

  lemma NoStopBefore(w: Site, seen: set<Pid>, cap: nat, k: nat, n: nat)
    requires w.size > 0 && Suffix(w.list, seen, k) && 0 < cap && cap * w.size < k
    requires 1 <= n <= w.Pages() && Stop(w, seen, cap, n) && forall g: nat :: 1 <= g < n ==> !Stop(w, seen, cap, g)
    ensures n == cap
  {
    SuffixBound(w.list, seen, k);
    hide PageOf, PageTotal;
    assert cap < n ==> Stop(w, seen, cap, cap);
    if n < cap {
      if n >= w.Pages() {
        AllBeyond(w, seen, n);
      } else {
        QuietBeyond(w, seen, n, k);
        SuffixBeyond(w, seen, n, k);
      }
      BeyondGrows(w, seen, n, cap);
      SuffixBeyond(w, seen, cap, k);
    }
  }

  lemma Times(a: nat, b: nat, size: nat)
    requires a <= b
    ensures 0 <= a * size <= b * size
  {
    assert (b - a) * size >= 0 && b * size == (b - a) * size + a * size;
  }

  lemma QuietUpto(w: Site, after: set<Pid>, cap: nat, k: nat, g: nat)
    requires Gap(w, after, cap, k) && 1 <= g <= cap
    ensures Quiet(w, after, g)
  {
    hide PageOf;
    Times(g, cap, w.size);
    forall e | e in w.Page(g)
      ensures e in after
    {
      var h := OnPage(w.list, w.size, g, e);
    }
  }

  lemma GapBehind(w: Site, after: set<Pid>, cap: nat, k: nat, g: nat)
    requires Gap(w, after, cap, k) && g <= cap && cap * w.size < k <= |w.list|
    ensures !KnownBeyond(w, after, g)
  {
    Times(g, cap, w.size);
    assert w.list[cap * w.size] !in after;
  }

  lemma QuietLate(w: Site, after: set<Pid>, k: nat, g: nat)
    requires w.size > 0 && Gap(w, after, 1, k) && w.size < k <= |w.list| && g >= 2 && Quiet(w, after, g)
    ensures KnownBeyond(w, after, g)
  {
    FirstOfQuiet(w, after, g);
    hide PageOf, Quiet;
    Times(1, g - 1, w.size);
    Times(g - 1, g, w.size);
  }

  lemma FirstOfQuiet(w: Site, after: set<Pid>, g: nat)
    requires w.size > 0 && g >= 1 && Quiet(w, after, g)
    ensures (g - 1) * w.size >= 0 && ((g - 1) * w.size < |w.list| ==> w.list[(g - 1) * w.size] in after)
  {
    PageFacts(w.list, w.size, g);
    hide PageOf;
    assert g * w.size == (g - 1) * w.size + w.size;
  }

  // ---- three runs ----

  const FIRST := Progress({}, None, None, false)

  /** Two quiet pages in front: nothing is learnt, whatever lies behind. */
  lemma QuietFront(w: Site, seen: set<Pid>, cap: nat)
    requires w.size > 0 && w.list != [] && Quiet(w, seen, 1) && Quiet(w, seen, 2)
    ensures Elems(Found(w, seen, cap)) <= seen
  {
    ReadsToStop(w, seen, cap);
    hide LastRead, PageOf, PageTotal, Quiet;
    var n := PagesRead(w, seen, cap);
    assert Stop(w, seen, cap, 2);
    assert Upfront(w, 0) == [];
    UpfrontNext(w, 1);
    if n == 2 { UpfrontNext(w, 2); }
    QuietElems(w, seen);
  }

  lemma QuietElems(w: Site, seen: set<Pid>)
    requires Quiet(w, seen, 1) && Quiet(w, seen, 2)
    ensures Elems(w.Page(1)) <= seen && Elems(w.Page(2)) <= seen
  {
  }

  /**
   * A scan capped at two pages of one post each, of three new posts: the third is never
   * found by a later shallow scan of the list, capped or not.
   */
  lemma CappedRun(time: Pid -> int, cap: nat)
    ensures var w := Site(["d", "c", "b", "a"], 1, time); var after := {"a"} + Elems(Found(w, {"a"}, 2));
      Suffix(w.list, {"a"}, 3) && after == {"d", "c", "a"} && "b" !in after + Elems(Found(w, after, cap))
  {
    var w := Site(["d", "c", "b", "a"], 1, time);
    assert Suffix(w.list, {"a"}, 3);
    GapIs(w, {"a"}, 2, 3);
    assert Found(w, {"a"}, 2) == ["d", "c"];
    var after := {"d", "c", "a"};
    assert {"a"} + Elems(["d", "c"]) == after;
    assert w.Page(1) == ["d"] && w.Page(2) == ["c"];
    QuietFront(w, after, cap);
  }

  lemma DeepOne(time: Pid -> int)
    ensures DeepRun(Site(["a"], 1, time), FIRST, Progress({"a"}, Some("a"), Some(1), true))
  {
    var w := Site(["a"], 1, time);
    assert w.Page(1) == ["a"] && w.Pages() == 1;
    var q := AfterPage(w, FIRST, 1);
    assert q == Progress({"a"}, Some("a"), Some(1), false);
    var more := DeepTrail(w, FIRST, false, 0);
    assert DeepFrom(w, q, 0, 0) == [q.(done := true)];
    assert more == Lines(FIRST, SortBy(["a"], time)) + [q] + [q.(done := true)];
    assert more[|more| - 1] == q.(done := true);
    assert q.(done := true) in DeepTrail(w, FIRST, false, 0);
  }

  /**
   * Two lists scanned into one store. The first was finished; two of its posts then came
   * in through the other list, are now in front of it, and hide a new post behind them
   * from every later shallow scan.
   */
  lemma TwoLists(time: Pid -> int, cap: nat)
    ensures var w := Site(["y", "x", "b", "a"], 1, time);
      var p := Progress({"a"}, Some("a"), Some(1), true); var q := p.(seen := {"a", "x", "y"});
      && DeepRun(Site(["a"], 1, time), FIRST, p) && Between(["a"], w.list, p, q)
      && "b" in w.list && "b" !in q.seen + Elems(Found(w, q.seen, cap))
  {
    DeepOne(time);
    InFrontOf();
    HiddenBehind(time, cap);
  }

  lemma InFrontOf()
    ensures Evolves(["a"], ["y", "x", "b", "a"], Some("a"))
  {
    assert Without(["a"], {}) == ["a"] by { assert ["a"][..0] == []; }
    assert Grown(["a"], ["y", "x", "b", "a"], ["y", "x", "b"], {});
  }

  lemma HiddenBehind(time: Pid -> int, cap: nat)
    ensures var w := Site(["y", "x", "b", "a"], 1, time); var seen := {"a", "x", "y"};
      "b" !in seen + Elems(Found(w, seen, cap))
  {
    var w := Site(["y", "x", "b", "a"], 1, time);
    assert w.Page(1) == ["y"] && w.Page(2) == ["x"];
    QuietFront(w, {"a", "x", "y"}, cap);
  }

  /**
   * The anchor moved to the front, one newer post before it: the deep scan finds it on
   * the page where it was, and is marked finished without the post it had not reached.
   */
  lemma AnchorMoved(time: Pid -> int)
    ensures var w := Site(["n", "a", "u"], 1, time);
      var p := Progress({"a"}, Some("a"), Some(2), false); var r := Last(p, DeepTrail(w, p, false, 0));
      && DeepRun(Site(["u", "a"], 1, time), FIRST, p) && Grown(["u", "a"], w.list, ["n", "a"], {"a"})
      && r.done && "u" in w.list && "u" !in r.seen
  {
    MovedBefore(time);
    ToFront();
    FoundAgain(time);
  }

  lemma ToFront()
    ensures Grown(["u", "a"], ["n", "a", "u"], ["n", "a"], {"a"})
  {
    assert Without(["u", "a"], {"a"}) == ["u"] by { assert ["u", "a"][..1] == ["u"] && ["u"][..0] == []; }
  }

  lemma FoundAgain(time: Pid -> int)
    ensures var w := Site(["n", "a", "u"], 1, time);
      var p := Progress({"a"}, Some("a"), Some(2), false); var r := Last(p, DeepTrail(w, p, false, 0));
      r.done && "u" !in r.seen
  {
    var w := Site(["n", "a", "u"], 1, time);
    assert w.Page(2) == ["a"] && w.Pages() == 3;
    var p := Progress({"a"}, Some("a"), Some(2), false);
    assert DeepStart(w, p, false) == 2;
    assert Stretch(w, 0, 2) == ["n", "a"];
    hide PageOf, PageTotal, DeepStart, DeepFrom, Last;
    DeepLearns(w, p, 2, 0);
  }

  lemma MovedBefore(time: Pid -> int)
    ensures DeepRun(Site(["u", "a"], 1, time), FIRST, Progress({"a"}, Some("a"), Some(2), false))
  {
    var w := Site(["u", "a"], 1, time);
    assert w.Page(2) == ["a"] && w.Pages() == 2;
    var q := AfterPage(w, FIRST, 2);
    assert q == Progress({"a"}, Some("a"), Some(2), false);
    var more := DeepTrail(w, FIRST, false, 1);
    assert more == Lines(FIRST, SortBy(["a"], time)) + [q] + [];
    assert more[|more| - 1] == q;
    assert q in DeepTrail(w, FIRST, false, 1);
  }

  const ONE_TIME: Pid -> int := (_: Pid) => 0

  /**
   * Three new posts of one time, killed after two lines: the sort keeps equals in their
   * order, so the newer two are queued first, and hide the third from every later
   * shallow scan.
   */
  lemma TiedKilled(cap: nat)
    ensures var w := Site(["y", "x", "b"], 1, ONE_TIME);
      var p0 := Progress({}, None, None, true); var p := p0.(seen := {"y", "x"});
      && DeepRun(Site([], 1, w.time), FIRST, p0) && p in ShallowTrail(w, p0, 0)
      && "b" !in p.seen + Elems(Found(w, p.seen, cap))
  {
    NothingListed(ONE_TIME);
    TwoLines();
    hide *;
    ThirdHidden(ONE_TIME, cap);
  }

  lemma ThirdHidden(time: Pid -> int, cap: nat)
    ensures var w := Site(["y", "x", "b"], 1, time); "b" !in {"y", "x"} + Elems(Found(w, {"y", "x"}, cap))
  {
    var w := Site(["y", "x", "b"], 1, time);
    assert w.Page(1) == ["y"] && w.Page(2) == ["x"];
    QuietFront(w, {"y", "x"}, cap);
  }

  lemma NothingListed(time: Pid -> int)
    ensures DeepRun(Site([], 1, time), FIRST, Progress({}, None, None, true))
  {
    var w := Site([], 1, time);
    assert w.Pages() == 0;
    var more := DeepTrail(w, FIRST, true, 0);
    assert more == [Progress({}, None, None, true)];
    assert more[0] in DeepTrail(w, FIRST, true, 0);
  }

  lemma TwoLines()
    ensures var w := Site(["y", "x", "b"], 1, ONE_TIME); var p0 := Progress({}, None, None, true);
      p0.(seen := {"y", "x"}) in ShallowTrail(w, p0, 0)
  {
    var w := Site(["y", "x", "b"], 1, ONE_TIME);
    var p0 := Progress({}, None, None, true);
    AllFound(w);
    SortedAsIs();
    NothingGone(["y", "x", "b"]);
    var more := ShallowTrail(w, p0, 0);
    LinesAre(p0, ["y", "x", "b"]);
    assert Elems(["y", "x", "b"][..2]) == {"y", "x"} by { assert ["y", "x", "b"][..2] == ["y", "x"]; }
    assert more[1] == p0.(seen := {} + Elems(["y", "x", "b"][..1 + 1]));
    assert more[1] == p0.(seen := {"y", "x"});
  }

  lemma NothingGone(s: seq<Pid>)
    ensures Without(s, {}) == s
  {
    WithoutAll(s, {});
  }

  lemma SortedAsIs()
    ensures SortBy(["y", "x", "b"], ONE_TIME) == ["y", "x", "b"]
  {
    SortNone(ONE_TIME);
    SortedOne([], "y");
    SortedOne(["y"], "x");
    SortedOne(["y", "x"], "b");
    assert [] + ["y"] == ["y"] && ["y"] + ["x"] == ["y", "x"] && ["y", "x"] + ["b"] == ["y", "x", "b"];
  }

  lemma SortedOne(s: seq<Pid>, x: Pid)
    requires SortBy(s, ONE_TIME) == s
    ensures SortBy(s + [x], ONE_TIME) == s + [x]
  {
    hide SortBy;
    SortSnoc(s, x, ONE_TIME);
    InsertIs(s, x, ONE_TIME);
  }

  lemma AllFound(w: Site)
    requires w.list == ["y", "x", "b"] && w.size == 1
    ensures Found(w, {}, 0) == ["y", "x", "b"]
  {
    assert Suffix(w.list, {}, 3);
    FoundCovers(w, {}, 0, 3);
  }
}
