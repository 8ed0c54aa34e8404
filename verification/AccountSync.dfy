/**
 * A whole sync of one account: the drain's threads over the real store, a discovery, and
 * the drain again.
 */
module AccountSync {
  import opened Common
  import opened JsonLines
  import opened StableSort
  import opened AccountDisk
  import opened AccountHistory
  import opened AccountStore
  import opened AccountDiscover
  import D = Drain

  /** Queued posts have no directory yet. */
  predicate Plain(es: seq<Entry>) {
    forall i :: 0 <= i < |es| ==> es[i].dir == ""
  }

  /** The posts a log of commits names. */
  ghost function Taken(queue: seq<Entry>, log: seq<nat>): set<string> {
    set k | 0 <= k < |log| && log[k] < |queue| :: queue[log[k]].id
  }

  ghost predicate Unstored(queue: seq<Entry>, ids: set<string>) {
    OncePerId(queue) && Ids(queue) !! ids
  }

  lemma TakenSnoc(queue: seq<Entry>, log: seq<nat>, i: nat)
    requires i < |queue|
    ensures Taken(queue, log + [i]) == Taken(queue, log) + {queue[i].id}
  {
    var more := log + [i];
    assert more[|log|] == i;
    assert forall k :: 0 <= k < |log| ==> more[k] == log[k];
  }

  /** The post being stored is in no index: the store's check never fails. */
  lemma NeverRefused(queue: seq<Entry>, ids: set<string>, s: D.State)
    requires D.Inv(s) && |s.status| == |queue| && Unstored(queue, ids) && s.main.Storing?
    ensures s.main.index < |queue| && queue[s.main.index].id !in ids + Taken(queue, s.log)
  {
    var i := s.main.index;
    assert queue[i].id in Ids(queue);
    forall k | 0 <= k < |s.log|
      ensures s.log[k] < |queue| && queue[s.log[k]].id != queue[i].id
    {
      assert s.log[k] in s.log;
      assert s.log[k] != i;
    }
  }

  /** In every reachable state of the drain's threads. */
  lemma NoneRefused(queue: seq<Entry>, ids: set<string>, workers: nat, es: seq<D.Event>)
    requires workers > 0 && Unstored(queue, ids) && D.Runs(D.Init(|queue|, workers), es)
    ensures var s := D.End(D.Init(|queue|, workers), es);
      s.main.Storing? ==> s.main.index < |queue| && queue[s.main.index].id !in ids + Taken(queue, s.log)
  {
    D.Reachable(|queue|, workers, es);
    var s := D.End(D.Init(|queue|, workers), es);
    hide *;
    if s.main.Storing? {
      NeverRefused(queue, ids, s);
    }
  }

  /** What the index has gained, in the order of the log. */
  ghost predicate Follows(index: seq<Entry>, index0: seq<Entry>, queue: seq<Entry>, log: seq<nat>) {
    && index0 <= index && |index| == |index0| + |log|
    && forall k :: 0 <= k < |log| ==>
         log[k] < |queue| && index[|index0| + k].id == queue[log[k]].id && index[|index0| + k].datetime == queue[log[k]].datetime
  }

  lemma FollowsNext(index: seq<Entry>, index0: seq<Entry>, queue: seq<Entry>, log: seq<nat>, e: Entry, i: nat)
    requires Follows(index, index0, queue, log) && i < |queue| && e.id == queue[i].id && e.datetime == queue[i].datetime
    ensures Follows(index + [e], index0, queue, log + [i])
  {
  }

  /** The store, the queue it started from and the threads agree. */
  ghost predicate InStep(store: Store, index0: seq<Entry>, queue: seq<Entry>, s: D.State)
    reads store
  {
    && store.Valid() && D.Inv(s) && |s.status| == |queue| && Unstored(queue, Ids(index0)) && Plain(queue)
    && store.ids == Ids(index0) + Taken(queue, s.log) && store.pending == NotIn(queue, Taken(queue, s.log))
    && Follows(store.index, index0, queue, s.log) && Rests(Stock(index0, queue), Stock(store.index, store.pending))
  }

  /** A fetched article; without text a tombstone. */
  datatype Article = Article(markdown: string, assets: map<string, string>)

  lemma Started(store: Store, workers: nat)
    requires store.Valid() && Plain(store.pending) && workers > 0
    ensures InStep(store, store.index, store.pending, D.Init(|store.pending|, workers))
  {
    var s := D.Init(|store.pending|, workers);
    D.InitHolds(|store.pending|, workers);
    Unqueued(store);
    hide Holds, Tracked, Whole, Ids, NotIn, OncePerId;
    assert Taken(store.pending, s.log) == {};
    NotInNothing(store.pending);
  }

  lemma NotInNothing(es: seq<Entry>)
    ensures NotIn(es, {}) == es
  {
    NotInNone(es, {});
  }

  lemma Unqueued(store: Store)
    requires store.Open()
    ensures Unstored(store.pending, store.ids)
  {
    NotInOnce(store.queued, store.ids);
    NotInIds(store.queued, store.ids);
  }

  lemma {:induction false} NotInStays(es: seq<Entry>, ids: set<string>, e: Entry)
    requires e in es && e.id !in ids
    ensures e in NotIn(es, ids)
  {
    var n := |es| - 1;
    if es[n] != e {
      NotInStays(es[..n], ids, e);
    }
  }

  lemma Moved(s0: Stock, s: Stock, s': Stock, e: Entry, was: Entry, taken: set<string>)
    requires Rests(s0, s) && s.queue == NotIn(s0.queue, taken) && was in s0.queue && was.id !in taken
    requires e.id == was.id && e.datetime == was.datetime
    requires s' == Stock(s.index + [e], NotIn(s.queue, {e.id}))
    ensures Rests(s0, s')
  {
    NotInStays(s0.queue, taken, was);
    hide Rests, NotIn;
    var i :| 0 <= i < |s.queue| && s.queue[i] == was;
    CommitRests(s, s', e, i);
    RestsTrans(s0, s, s');
  }

  /** One article is stored: the threads' commit and the store's. */
  method StoreNext(store: Store, ghost index0: seq<Entry>, queue: seq<Entry>, s: D.State, a: Article)
    requires InStep(store, index0, queue, s) && D.Enabled(s, D.Commit)
    modifies store
    ensures InStep(store, index0, queue, D.After(s, D.Commit))
    ensures old(store.trail) <= store.trail
  {
    hide Holds, Tracked, Whole, Ids, NotIn, OncePerId, Follows, Rests, D.Inv, Taken, AllHold;
    var i := s.main.index;
    NeverRefused(queue, Ids(index0), s);
    D.StepKeeps(s, D.Commit);
    ghost var index, pending := store.index, store.pending;
    ghost var more := store.Commit(queue[i], a.markdown, a.assets);
    ghost var e := CommittedAs(store.format, queue[i], a.markdown, a.assets);
    TakenSnoc(queue, s.log, i);
    NotInTwice(queue, Taken(queue, s.log), {queue[i].id});
    FollowsNext(index, index0, queue, s.log, e, i);
    Moved(Stock(index0, queue), Stock(index, pending), Stock(store.index, store.pending), e, queue[i], Taken(queue, s.log));
  }

  lemma OtherStep(store: Store, index0: seq<Entry>, queue: seq<Entry>, s: D.State, e: D.Event)
    requires InStep(store, index0, queue, s) && D.Enabled(s, e) && e != D.Commit
    ensures InStep(store, index0, queue, D.After(s, e))
  {
    hide Holds, Tracked, Whole, Ids, NotIn, OncePerId, Follows, Rests, Taken, D.Inv;
    D.StepKeeps(s, e);
  }

  lemma {:induction false} RunsNext(s: D.State, es: seq<D.Event>, e: D.Event)
    requires D.Runs(s, es) && D.Enabled(D.End(s, es), e)
    ensures D.Runs(s, es + [e]) && D.End(s, es + [e]) == D.After(D.End(s, es), e)
    decreases |es|
  {
    hide D.After, D.Enabled;
    if es == [] {
      assert (es + [e])[1..] == [];
    } else {
      assert (es + [e])[1..] == es[1..] + [e];
      RunsNext(D.After(s, es[0]), es[1..], e);
    }
  }

  /**
   * The drain, its threads scheduled in any way; what a schedule asks of a thread that
   * cannot move is passed over. What the log of commits names is in the index, in that
   * order; the rest of the queue is still queued. No commit is refused, no post is lost.
   */
  method Drain(store: Store, workers: nat, schedule: seq<D.Event>) returns (done: bool, ghost s: D.State, ghost run: seq<D.Event>)
    requires store.Valid() && Plain(store.pending) && workers > 0
    modifies store
    ensures D.Runs(D.Init(|old(store.pending)|, workers), run) && s == D.End(D.Init(|old(store.pending)|, workers), run)
    ensures D.Runs(D.Init(|old(store.pending)|, workers), schedule) && old(store.pending) != [] ==> run == schedule
    ensures done <==> s.main == D.Finished || old(store.pending) == []
    ensures InStep(store, old(store.index), old(store.pending), s) && old(store.trail) <= store.trail
  {
    hide Holds, Tracked, Whole, Ids, NotIn, OncePerId, Follows, Rests, Taken, Unstored, D.Inv, D.After, D.Enabled;
    var queue := store.pending;
    ghost var index0 := store.index;
    var at := D.Init(|queue|, workers);
    Started(store, workers);
    run := [];
    if queue == [] {
      return true, at, [];
    }
    for k := 0 to |schedule|
      invariant InStep(store, index0, queue, at) && old(store.trail) <= store.trail
      invariant D.Runs(D.Init(|queue|, workers), run) && at == D.End(D.Init(|queue|, workers), run)
      invariant D.Runs(D.Init(|queue|, workers), schedule) ==> run == schedule[..k] && D.Runs(at, schedule[k..])
    {
      var e := schedule[k];
      assert schedule[k..][0] == e && schedule[k..][1..] == schedule[k + 1..];
      if D.Enabled(at, e) {
        RunsNext(D.Init(|queue|, workers), run, e);
        if e == D.Commit {
          var a: Article := *;
          StoreNext(store, index0, queue, at, a);
        } else {
          OtherStep(store, index0, queue, at, e);
        }
        at, run := D.After(at, e), run + [e];
      }
    }
    assert schedule[..|schedule|] == schedule;
    done, s := at.main == D.Finished, at;
  }

  /** After a drain that came to its end, the committed are indexed and exactly the holes are queued. */
  lemma Drained(store: Store, index0: seq<Entry>, queue: seq<Entry>, s: D.State, i: nat)
    requires InStep(store, index0, queue, s) && s.main == D.Finished && i < |queue|
    ensures queue[i].id in store.ids <==> s.status[i] == D.Committed
    ensures queue[i] in store.pending <==> s.status[i] == D.Hole
  {
    D.AllSettled(s);
    assert queue[i].id in Ids(queue);
    InLog(queue, s, i);
    hide Ids, Taken, Holds, Tracked, Whole, Follows, Rests;
    if s.status[i] == D.Hole {
      NotInStays(queue, Taken(queue, s.log), queue[i]);
    }
  }

  lemma InLog(queue: seq<Entry>, s: D.State, i: nat)
    requires D.Inv(s) && |s.status| == |queue| && OncePerId(queue) && i < |queue|
    ensures queue[i].id in Taken(queue, s.log) <==> s.status[i] == D.Committed
  {
    forall k | 0 <= k < |s.log|
      ensures s.log[k] < |queue| && s.status[s.log[k]] == D.Committed && (queue[s.log[k]].id == queue[i].id <==> s.log[k] == i)
    {
      assert s.log[k] in s.log;
    }
    if s.status[i] == D.Committed {
      assert i in s.log;
    }
  }

  // ---- discovery over the store ----

  /** The watermark, over an index in any order. */
  method LatestTime(index: seq<Entry>) returns (max: int)
    ensures max == Watermark(index)
  {
    max := 0;
    for k := 0 to |index|
      invariant max == Watermark(index[..k])
    {
      assert index[..k + 1][..k] == index[..k];
      if index[k].datetime > max {
        max := index[k].datetime;
      }
    }
    assert index[..|index|] == index;
  }

  /** Only a reading that came to its end writes the queue. */
  method Discover(store: Store, pages: seq<Page>) returns (ok: bool)
    requires store.Open()
    modifies store
    ensures store.Open() && (old(store.Valid()) ==> store.Valid()) && old(store.trail) <= store.trail
    ensures var s := Stock(old(store.index), old(store.pending));
      var r := Fetched(pages, Watermark(s.index), Ids(s.index));
      && (ok <==> r.Some?) && (r.None? ==> unchanged(store))
      && (r.Some? ==> Stock(store.index, store.pending) == Discovered(s, r.value))
  {
    hide Holds, Tracked, NotIn, Ids, Fetched, Watermark, Merged, Whole;
    var since := LatestTime(store.index);
    var found := FetchNew(pages, since, store.ids);
    ok := found.Some?;
    if ok {
      store.SetPending(found.value);
    }
  }

  lemma {:induction false} FirstOnlyFrom(es: seq<Entry>)
    ensures forall e :: e in FirstOnly(es) ==> e in es
  {
    if es != [] {
      FirstOnlyFrom(es[..|es| - 1]);
    }
  }

  lemma MergedFrom(queue: seq<Entry>, more: seq<Entry>, ids: set<string>)
    ensures forall e :: e in Merged(queue, more, ids) ==> e in queue || e in more
  {
    var kept := NotIn(queue + more, ids);
    FirstOnlyFrom(kept);
    SortSame(FirstOnly(kept), (e: Entry) => e.datetime);
    hide FirstOnly, SortBy;
    forall e | e in Merged(queue, more, ids)
      ensures e in queue || e in more
    {
      assert e in multiset(Merged(queue, more, ids));
      assert e in FirstOnly(kept);
    }
  }

  lemma FoundPlain(pages: seq<Page>, s: Stock)
    requires Plain(s.queue) && Plain(Flat(pages))
    ensures var r := Fetched(pages, Watermark(s.index), Ids(s.index)); r.Some? ==> Plain(Discovered(s, r.value).queue)
  {
    var r := Fetched(pages, Watermark(s.index), Ids(s.index));
    FoundListed(pages, Watermark(s.index), Ids(s.index), 0, []);
    if r.Some? {
      MergedFrom(s.queue, r.value, Ids(s.index));
      hide Merged, Flat, FetchFrom, Ids, Watermark;
      var q := Discovered(s, r.value).queue;
      forall i | 0 <= i < |q|
        ensures q[i].dir == ""
      {
        assert q[i] in q;
      }
    }
  }

  /** What a sync makes of a stock: drained, discovered into if it got that far, drained again. */
  ghost predicate Synced(s0: Stock, mid: Stock, s1: Stock, pages: seq<Page>, ok: bool) {
    var r := Fetched(pages, Watermark(mid.index), Ids(mid.index));
    Rests(s0, mid) && if ok then r.Some? && Rests(Discovered(mid, r.value), s1) else Rests(mid, s1)
  }

  /**
   * One sync: drain what is queued, discover if there is a credential that works, drain
   * what was found.
   */
  method Sync(store: Store, workers: nat, first: seq<D.Event>, credential: bool, pages: seq<Page>, second: seq<D.Event>)
    returns (found: bool, ghost mid: Stock)
    requires store.Valid() && Plain(store.pending) && Plain(Flat(pages)) && workers > 0
    modifies store
    ensures store.Valid() && Plain(store.pending) && old(store.trail) <= store.trail
    ensures found ==> credential
    ensures Synced(Stock(old(store.index), old(store.pending)), mid, Stock(store.index, store.pending), pages, found)
  {
    hide Holds, Tracked, Whole, Ids, NotIn, Follows, Rests, Taken, Unstored, Discovered, Fetched, Watermark, Flat;
    hide D.Inv, D.After, D.Enabled, D.Runs, D.End;
    found := false;
    var done;
    ghost var s, run;
    done, s, run := Drain(store, workers, first);
    mid := Stock(store.index, store.pending);
    RestsSame(mid);
    if !done || !credential {
      return;
    }
    FoundPlain(pages, mid);
    found := Discover(store, pages);
    if found {
      done, s, run := Drain(store, workers, second);
    }
  }

  lemma RestsSame(s: Stock)
    ensures Rests(s, s)
  {
  }

  /** However a sync ends, nothing held is lost. */
  lemma SyncKeeps(s0: Stock, mid: Stock, s1: Stock, pages: seq<Page>, ok: bool)
    requires Synced(s0, mid, s1, pages, ok)
    ensures Held(s0) <= Held(s1)
  {
    var r := Fetched(pages, Watermark(mid.index), Ids(mid.index));
    if r.Some? {
      DiscoveredHolds(mid, r.value);
    }
    hide Held, Discovered, Fetched;
  }

  /**
   * A sync that got through a complete listing, from any stock, leaves every listed post
   * in the index or the queue if and only if nothing lay behind a page that would halt it
   * and what was listed as older than the watermark was held or listed again as wanted.
   */
  lemma SyncMissesNone(s0: Stock, mid: Stock, s1: Stock, pages: seq<Page>)
    requires Synced(s0, mid, s1, pages, true) && WholeListing(pages)
    ensures AllHeld(Flat(pages), s1) <==> NothingBehind(pages, mid) && OlderHeld(pages, mid)
  {
    hide Held, Discovered, Fetched, WholeListing, NothingBehind, OlderHeld, Flat, Watermark, Ids;
    DiscoverIff(pages, mid);
  }

  /** So always when no unheld post is older than a held one, the listing descends in time and no page merely repeats. */
  lemma OrderlySync(s0: Stock, mid: Stock, s1: Stock, pages: seq<Page>)
    requires Synced(s0, mid, s1, pages, true) && WholeListing(pages)
    requires NoneOlder(Flat(pages), s0) && Descending(Flat(pages)) && FreshPages(pages)
    ensures AllHeld(Flat(pages), s1)
  {
    SyncMissesNone(s0, mid, s1, pages);
    hide NoneOlder, AllHeld, Discovered, Fetched, WholeListing, NothingBehind, OlderHeld, Flat, Descending, FreshPages;
    RestsKeeps(Flat(pages), s0, mid);
    OrderlyCovers(pages, mid);
    OlderIsHeld(pages, mid);
  }

  // ---- sync after sync ----

  /** One sync: the stocks before it, when it looked for new posts and after it, what it was served, and whether it got through. */
  datatype Round = Round(before: Stock, mid: Stock, after: Stock, pages: seq<Page>, ok: bool)

  /** All that was listed by the syncs that got through. */
  ghost function Past(rs: seq<Round>): seq<Entry> {
    if rs == [] then [] else Past(rs[..|rs| - 1]) + Listed(rs[|rs| - 1])
  }

  ghost function Listed(r: Round): seq<Entry> {
    if r.ok then Flat(r.pages) else []
  }

  /** A post not listed before is no older than any that was. */
  ghost predicate NewerThan(past: seq<Entry>, list: seq<Entry>) {
    forall e, x :: e in list && e.id !in Ids(past) && x in past ==> x.datetime <= e.datetime
  }

  /** A whole listing by descending time, its pages not merely repeating, its new posts the newest. */
  ghost predicate Orderly(past: seq<Entry>, pages: seq<Page>) {
    WholeListing(pages) && Descending(Flat(pages)) && FreshPages(pages) && NewerThan(past, Flat(pages))
  }

  /** Syncs of an empty store, ended anywhere; between them openings and what a crash had left to prune. */
  ghost predicate Syncs(rs: seq<Round>) {
    && (rs != [] ==> rs[0].before == Stock([], []))
    && (forall i :: 0 < i < |rs| ==> Rests(rs[i - 1].after, rs[i].before))
    && forall i :: 0 <= i < |rs| ==> RoundOk(rs, i)
  }

  ghost predicate RoundOk(rs: seq<Round>, i: nat)
    requires i < |rs|
  {
    var r := rs[i];
    Synced(r.before, r.mid, r.after, r.pages, r.ok) && (r.ok ==> Orderly(Past(rs[..i]), r.pages))
  }

  /** All listed posts are held, and nothing of another time is. */
  ghost predicate Covered(past: seq<Entry>, s: Stock) {
    AllHeld(past, s) && Times(s) <= TimesOf(past)
  }

  lemma CoveredRests(past: seq<Entry>, s: Stock, s': Stock)
    requires Covered(past, s) && Rests(s, s')
    ensures Covered(past, s')
  {
    hide Held, Times, TimesOf;
  }

  lemma CoveredInOrder(past: seq<Entry>, s: Stock, list: seq<Entry>)
    requires Covered(past, s) && NewerThan(past, list)
    ensures NoneOlder(list, s)
  {
    hide Held;
    forall e | e in list && e.id !in Held(s)
      ensures NotBefore(e, s)
    {
      IdHeld(past, s, e.id);
      forall h | h in s.index || h in s.queue
        ensures h.datetime <= e.datetime
      {
        assert h.datetime in Times(s);
        var x :| x in past && x.datetime == h.datetime;
      }
    }
  }

  lemma IdHeld(past: seq<Entry>, s: Stock, id: string)
    requires AllHeld(past, s) && id !in Held(s)
    ensures id !in Ids(past)
  {
    hide Held;
  }

  lemma DiscoveredTimes(s: Stock, pages: seq<Page>)
    ensures var r := Fetched(pages, Watermark(s.index), Ids(s.index));
      r.Some? ==> Times(Discovered(s, r.value)) <= Times(s) + TimesOf(Flat(pages))
  {
    var r := Fetched(pages, Watermark(s.index), Ids(s.index));
    FoundListed(pages, Watermark(s.index), Ids(s.index), 0, []);
    if r.Some? {
      MergedFrom(s.queue, r.value, Ids(s.index));
      hide Merged, Flat, FetchFrom, Ids, Watermark;
    }
  }

  lemma TimesJoin(a: seq<Entry>, b: seq<Entry>)
    ensures TimesOf(a + b) == TimesOf(a) + TimesOf(b)
  {
    assert forall e :: e in a + b <==> e in a || e in b;
    assert forall e :: e in a ==> e.datetime in TimesOf(a + b);
    assert forall e :: e in b ==> e.datetime in TimesOf(a + b);
  }

  lemma HeldJoin(a: seq<Entry>, b: seq<Entry>, s: Stock)
    requires AllHeld(a, s) && AllHeld(b, s)
    ensures AllHeld(a + b, s)
  {
    hide Held;
  }

  lemma HeldMore(past: seq<Entry>, s: Stock, s': Stock)
    requires AllHeld(past, s) && Held(s) <= Held(s')
    ensures AllHeld(past, s')
  {
    hide Held;
  }

  lemma SyncedTimes(r: Round)
    requires Synced(r.before, r.mid, r.after, r.pages, r.ok)
    ensures Times(r.after) <= Times(r.before) + TimesOf(Listed(r))
  {
    DiscoveredTimes(r.mid, r.pages);
    hide Held, Times, TimesOf, Discovered, Fetched, Flat, Watermark, Ids;
  }

  /** One more sync. */
  lemma RoundKeeps(past: seq<Entry>, r: Round)
    requires Covered(past, r.before) && Synced(r.before, r.mid, r.after, r.pages, r.ok)
    requires r.ok ==> Orderly(past, r.pages)
    ensures Covered(past + Listed(r), r.after)
  {
    SyncKeeps(r.before, r.mid, r.after, r.pages, r.ok);
    SyncedTimes(r);
    TimesJoin(past, Listed(r));
    hide Synced, Held, Times, TimesOf, Flat, AllHeld, WholeListing, Descending, FreshPages, NewerThan, NoneOlder;
    HeldMore(past, r.before, r.after);
    if r.ok {
      CoveredInOrder(past, r.before, Flat(r.pages));
      OrderlySync(r.before, r.mid, r.after, r.pages);
      HeldJoin(past, Flat(r.pages), r.after);
    } else {
      assert past + Listed(r) == past;
    }
  }

  /**
   * Sync after sync from an empty store, the listings orderly: every post ever listed by
   * a sync that got through is in the index or the queue ever after.
   */
  lemma {:induction false} SyncsHold(rs: seq<Round>, i: nat)
    requires Syncs(rs) && i < |rs|
    ensures Covered(Past(rs[..i]), rs[i].before) && Covered(Past(rs[..i + 1]), rs[i].after)
    ensures forall j, e :: 0 <= j <= i && e in Listed(rs[j]) ==> e.id in Held(rs[i].after)
  {
    assert RoundOk(rs, i);
    PastNext(rs, i);
    hide Covered, Synced, Orderly, Rests, Listed, Held;
    if i == 0 {
      NothingYet();
      assert rs[..0] == [];
    } else {
      SyncsHold(rs, i - 1);
      assert Rests(rs[i - 1].after, rs[i].before);
      CoveredRests(Past(rs[..i]), rs[i - 1].after, rs[i].before);
    }
    RoundKeeps(Past(rs[..i]), rs[i]);
    forall j, e | 0 <= j <= i && e in Listed(rs[j])
      ensures e.id in Held(rs[i].after)
    {
      PastHas(rs, j, i + 1, e);
      CoveredHolds(Past(rs[..i + 1]), rs[i].after, e);
    }
  }

  lemma PastNext(rs: seq<Round>, i: nat)
    requires i < |rs|
    ensures Past(rs[..i + 1]) == Past(rs[..i]) + Listed(rs[i])
  {
    assert rs[..i + 1][..i] == rs[..i];
  }

  lemma {:induction false} PastHas(rs: seq<Round>, j: nat, n: nat, e: Entry)
    requires j < n <= |rs| && e in Listed(rs[j])
    ensures e in Past(rs[..n])
  {
    hide Listed;
    PastNext(rs, n - 1);
    if j < n - 1 {
      PastHas(rs, j, n - 1, e);
    }
  }

  lemma CoveredHolds(past: seq<Entry>, s: Stock, e: Entry)
    requires Covered(past, s) && e in past
    ensures e.id in Held(s)
  {
  }

  lemma NothingYet()
    ensures Covered([], Stock([], []))
  {
  }
}
