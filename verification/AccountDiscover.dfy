/**
 * Finding an account's new articles, from the newest page of its listing back to the
 * watermark, and what index and queue together hold over any runs.
 */
module AccountDiscover {
  import opened Common
  import opened StableSort
  import opened AccountDisk
  import opened AccountStore

  /** A page ends the listing, leads on, or names a next offset that does not advance. */
  datatype Next = Last | More | Stuck

  datatype Page = Page(entries: seq<Entry>, next: Next)

  /** The latest time of an index; zero when there is none. */
  function Watermark(es: seq<Entry>): (w: int)
    ensures w >= 0 && forall i :: 0 <= i < |es| ==> es[i].datetime <= w
    ensures w > 0 ==> exists i :: 0 <= i < |es| && es[i].datetime == w
  {
    if es == [] then 0
    else
      var n := |es| - 1;
      var w := Watermark(es[..n]);
      if es[n].datetime > w then es[n].datetime else w
  }

  predicate Older(e: Entry, since: int) {
    since > 0 && e.datetime < since
  }

  predicate Wanted(e: Entry, since: int, known: set<string>) {
    !Older(e, since) && e.id !in known
  }

  /** What is collected when a page is read, each post once. */
  ghost function Collected(out: seq<Entry>, es: seq<Entry>, since: int, known: set<string>): seq<Entry> {
    if es == [] then out
    else
      var n := |es| - 1;
      var o := Collected(out, es[..n], since, known);
      if Wanted(es[n], since, known) && es[n].id !in Ids(o) then o + [es[n]] else o
  }

  ghost function Flat(pages: seq<Page>): seq<Entry> {
    if pages == [] then [] else Flat(pages[..|pages| - 1]) + pages[|pages| - 1].entries
  }

  /** The posts wanted of a listing. */
  ghost function News(es: seq<Entry>, since: int, known: set<string>): set<string> {
    set i | 0 <= i < |es| && Wanted(es[i], since, known) :: es[i].id
  }

  /** A page with a post older than the watermark. */
  predicate Crosses(es: seq<Entry>, since: int) {
    exists i :: 0 <= i < |es| && Older(es[i], since)
  }

  /** A page of nothing but posts wanted and already collected. */
  ghost predicate Repeats(es: seq<Entry>, since: int, known: set<string>, seen: set<string>) {
    es != [] && forall i :: 0 <= i < |es| ==> Wanted(es[i], since, known) && es[i].id in seen
  }

  ghost predicate Halts(pages: seq<Page>, since: int, known: set<string>, i: nat)
    requires i < |pages|
  {
    Crosses(pages[i].entries, since) || Repeats(pages[i].entries, since, known, News(Flat(pages[..i]), since, known))
  }

  /** What is found from page i on; None when the reading is cut short or refused. */
  ghost function FetchFrom(pages: seq<Page>, since: int, known: set<string>, i: nat, out: seq<Entry>): Option<seq<Entry>>
    decreases |pages| - i
  {
    if i >= |pages| then None
    else
      var o := Collected(out, pages[i].entries, since, known);
      if Halts(pages, since, known, i) then Some(o)
      else match pages[i].next
        case Last => Some(o)
        case Stuck => None
        case More => FetchFrom(pages, since, known, i + 1, o)
  }

  ghost function Fetched(pages: seq<Page>, since: int, known: set<string>): Option<seq<Entry>> {
    FetchFrom(pages, since, known, 0, [])
  }

  // ---- reading ----

  lemma NewsSnoc(es: seq<Entry>, e: Entry, since: int, known: set<string>)
    ensures News(es + [e], since, known) == News(es, since, known) + if Wanted(e, since, known) then {e.id} else {}
  {
    var more := es + [e];
    forall x
      ensures x in News(more, since, known) <==> x in News(es, since, known) + if Wanted(e, since, known) then {e.id} else {}
    {
      if x in News(es, since, known) {
        var i :| 0 <= i < |es| && Wanted(es[i], since, known) && es[i].id == x;
        assert more[i].id == x && Wanted(more[i], since, known);
      }
      if Wanted(e, since, known) {
        assert more[|es|].id == e.id && Wanted(more[|es|], since, known);
      }
    }
  }

  lemma {:induction false} NewsJoin(a: seq<Entry>, b: seq<Entry>, since: int, known: set<string>)
    ensures News(a + b, since, known) == News(a, since, known) + News(b, since, known)
  {
    hide News;
    if b != [] {
      var n := |b| - 1;
      NewsJoin(a, b[..n], since, known);
      NewsSnoc(a + b[..n], b[n], since, known);
      NewsSnoc(b[..n], b[n], since, known);
      assert a + b[..n] + [b[n]] == a + b && b[..n] + [b[n]] == b;
    } else {
      assert a + b == a;
      NewsNone(since, known);
    }
  }

  lemma NewsNone(since: int, known: set<string>)
    ensures News([], since, known) == {}
  {
  }

  lemma {:induction false} CollectedFacts(out: seq<Entry>, es: seq<Entry>, since: int, known: set<string>)
    ensures var o := Collected(out, es, since, known);
      out <= o && Ids(o) == Ids(out) + News(es, since, known) && (OncePerId(out) ==> OncePerId(o))
      && forall e :: e in o ==> e in out || e in es
  {
    if es == [] {
      NewsNone(since, known);
    } else {
      var n := |es| - 1;
      assert es == es[..n] + [es[n]];
      CollectedFacts(out, es[..n], since, known);
      NewsSnoc(es[..n], es[n], since, known);
      var o := Collected(out, es[..n], since, known);
      IdsSnoc(o, es[n]);
      hide News;
      if es[n].id !in Ids(o) {
        CollectOne(o, es[n]);
      }
    }
  }

  lemma CollectOne(o: seq<Entry>, e: Entry)
    requires e.id !in Ids(o)
    ensures OncePerId(o) ==> OncePerId(o + [e])
  {
    forall i | 0 <= i < |o|
      ensures o[i].id != e.id
    {
      assert o[i].id in Ids(o);
    }
  }

  /** One page, post by post: what is collected, and whether anything was crossed, filtered or fresh. */
  method ReadPage(es: seq<Entry>, since: int, known: set<string>, out: seq<Entry>, seen: set<string>)
    returns (o: seq<Entry>, seen': set<string>, crossed: bool, filtered: nat, added: nat)
    requires seen == Ids(out)
    ensures o == Collected(out, es, since, known) && seen' == Ids(o)
    ensures crossed <==> Crosses(es, since)
    ensures filtered == 0 <==> forall i :: 0 <= i < |es| ==> Wanted(es[i], since, known)
    ensures added == |o| - |out|
  {
    hide Ids;
    o, seen', crossed, filtered, added := out, seen, false, 0, 0;
    var i := 0;
    while i < |es|
      invariant 0 <= i <= |es| && o == Collected(out, es[..i], since, known) && seen' == Ids(o)
      invariant crossed <==> Crosses(es[..i], since)
      invariant filtered == 0 <==> forall j :: 0 <= j < i ==> Wanted(es[j], since, known)
      invariant added == |o| - |out|
    {
      assert es[..i + 1][..i] == es[..i];
      CrossesSnoc(es, i, since);
      if since > 0 && es[i].datetime < since {
        crossed, filtered := true, filtered + 1;
      } else if es[i].id in known {
        filtered := filtered + 1;
      } else if es[i].id !in seen' {
        IdsSnoc(o, es[i]);
        seen', o, added := seen' + {es[i].id}, o + [es[i]], added + 1;
      }
      i := i + 1;
    }
    assert es[..i] == es;
  }

  lemma CrossesSnoc(es: seq<Entry>, i: nat, since: int)
    requires i < |es|
    ensures Crosses(es[..i + 1], since) <==> Crosses(es[..i], since) || Older(es[i], since)
  {
    if Crosses(es[..i], since) {
      var j :| 0 <= j < i && Older(es[..i][j], since);
      assert Older(es[..i + 1][j], since);
    }
    if Older(es[i], since) {
      assert Older(es[..i + 1][i], since);
    }
  }

  /** Nothing new on a page of wanted posts only: each is among those collected before. */
  lemma RepeatsIff(out: seq<Entry>, es: seq<Entry>, since: int, known: set<string>)
    ensures var o := Collected(out, es, since, known);
      (es != [] && |o| == |out| && forall i :: 0 <= i < |es| ==> Wanted(es[i], since, known)) <==> Repeats(es, since, known, Ids(out))
  {
    CollectedFacts(out, es, since, known);
    var o := Collected(out, es, since, known);
    if |o| == |out| {
      assert o == out;
      assert forall i :: 0 <= i < |es| && Wanted(es[i], since, known) ==> es[i].id in News(es, since, known);
    }
    if Repeats(es, since, known, Ids(out)) {
      NothingAdded(out, es, since, known);
    }
  }

  lemma {:induction false} NothingAdded(out: seq<Entry>, es: seq<Entry>, since: int, known: set<string>)
    requires forall i :: 0 <= i < |es| ==> es[i].id in Ids(out)
    ensures Collected(out, es, since, known) == out
  {
    hide Ids;
    if es != [] {
      NothingAdded(out, es[..|es| - 1], since, known);
    }
  }

  /** Reading page after page. Cut short, or refused, it finds nothing at all. */
  method FetchNew(pages: seq<Page>, since: int, known: set<string>) returns (r: Option<seq<Entry>>)
    ensures r == Fetched(pages, since, known)
  {
    hide Ids, News, Crosses, Repeats;
    var out: seq<Entry>, seen: set<string> := [], {};
    var cursor := 0;
    NoIds();
    NewsNone(since, known);
    while cursor < |pages|
      invariant 0 <= cursor <= |pages| && seen == Ids(out) == News(Flat(pages[..cursor]), since, known)
      invariant FetchFrom(pages, since, known, cursor, out) == Fetched(pages, since, known)
    {
      var crossed, filtered, added;
      ghost var before := out;
      CollectedFacts(out, pages[cursor].entries, since, known);
      RepeatsIff(out, pages[cursor].entries, since, known);
      FlatNext(pages, cursor, since, known);
      out, seen, crossed, filtered, added := ReadPage(pages[cursor].entries, since, known, out, seen);
      if crossed {
        return Some(out);
      }
      if pages[cursor].entries != [] && added == 0 && filtered == 0 {
        return Some(out);
      }
      if pages[cursor].next == Last {
        return Some(out);
      }
      if pages[cursor].next == Stuck {
        return None;
      }
      cursor := cursor + 1;
    }
    return None;
  }

  lemma NoIds()
    ensures Ids([]) == {}
  {
  }

  lemma FlatNext(pages: seq<Page>, i: nat, since: int, known: set<string>)
    requires i < |pages|
    ensures Flat(pages[..i + 1]) == Flat(pages[..i]) + pages[i].entries
    ensures News(Flat(pages[..i + 1]), since, known) == News(Flat(pages[..i]), since, known) + News(pages[i].entries, since, known)
  {
    assert pages[..i + 1][..i] == pages[..i];
    NewsJoin(Flat(pages[..i]), pages[i].entries, since, known);
  }

  // ---- what a complete reading finds ----

  /** A listing read to its end: every page but the last leads on. */
  ghost predicate WholeListing(pages: seq<Page>) {
    && pages != [] && pages[|pages| - 1].next == Last
    && forall i :: 0 <= i < |pages| - 1 ==> pages[i].next == More
  }

  /** It stops at the first page that halts it, or at the last. */
  lemma {:induction false} FetchStops(pages: seq<Page>, since: int, known: set<string>, i: nat, out: seq<Entry>) returns (n: nat)
    requires WholeListing(pages) && i < |pages| && Ids(out) == News(Flat(pages[..i]), since, known)
    requires OncePerId(out) && forall e :: e in out ==> e in Flat(pages[..i])
    ensures i <= n < |pages| && (Halts(pages, since, known, n) || n == |pages| - 1)
    ensures forall m :: i <= m < n ==> !Halts(pages, since, known, m)
    ensures var r := FetchFrom(pages, since, known, i, out);
      r.Some? && Ids(r.value) == News(Flat(pages[..n + 1]), since, known) && OncePerId(r.value) && forall e :: e in r.value ==> e in Flat(pages)
    decreases |pages| - i
  {
    hide Ids, News, Crosses, Repeats, OncePerId;
    CollectedFacts(out, pages[i].entries, since, known);
    FlatNext(pages, i, since, known);
    var o := Collected(out, pages[i].entries, since, known);
    InFlat(pages, i + 1, o);
    if Halts(pages, since, known, i) || i == |pages| - 1 {
      n := i;
    } else {
      n := FetchStops(pages, since, known, i + 1, o);
    }
  }

  lemma {:induction false} FlatSplit(pages: seq<Page>, i: nat)
    requires i <= |pages|
    ensures Flat(pages) == Flat(pages[..i]) + Flat(pages[i..])
    decreases |pages| - i
  {
    if i == |pages| {
      assert pages[..i] == pages && Flat(pages[i..]) == [];
    } else {
      var n := |pages| - 1;
      FlatSplit(pages[..n], i);
      assert pages[..n][..i] == pages[..i] && pages[..n][i..] == pages[i..][..n - i];
      assert pages[i..][n - i] == pages[n];
      AssocFlat(Flat(pages[..i]), Flat(pages[..n][i..]), pages[n].entries);
    }
  }

  lemma AssocFlat(a: seq<Entry>, b: seq<Entry>, c: seq<Entry>)
    ensures (a + b) + c == a + (b + c)
  {
  }

  lemma InFlat(pages: seq<Page>, i: nat, o: seq<Entry>)
    requires i <= |pages| && forall e :: e in o ==> e in Flat(pages[..i])
    ensures forall e :: e in o ==> e in Flat(pages)
  {
    FlatSplit(pages, i);
  }

  // ---- index and queue over any runs ----

  datatype Stock = Stock(index: seq<Entry>, queue: seq<Entry>)

  ghost function Held(s: Stock): set<string> {
    Ids(s.index) + Ids(s.queue)
  }

  /** A listed post that is not held is no older than anything held. */
  ghost predicate NoneOlder(list: seq<Entry>, s: Stock) {
    forall e :: e in list ==> e.id in Held(s) || NotBefore(e, s)
  }

  ghost predicate NotBefore(e: Entry, s: Stock) {
    forall h :: h in s.index || h in s.queue ==> h.datetime <= e.datetime
  }

  ghost predicate AllHeld(list: seq<Entry>, s: Stock) {
    forall e :: e in list ==> e.id in Held(s)
  }

  /** So every listed post older than the watermark is in the index or the queue. */
  lemma WatermarkHolds(list: seq<Entry>, s: Stock, e: Entry)
    requires NoneOlder(list, s) && e in list && Older(e, Watermark(s.index))
    ensures e.id in Held(s)
  {
    var i :| 0 <= i < |s.index| && s.index[i].datetime == Watermark(s.index);
    assert s.index[i] in s.index;
  }

  /** What a discovery makes of a stock. */
  ghost function Discovered(s: Stock, found: seq<Entry>): Stock {
    s.(queue := Merged(s.queue, found, Ids(s.index)))
  }

  lemma DiscoveredHolds(s: Stock, found: seq<Entry>)
    ensures Held(Discovered(s, found)) == Held(s) + Ids(found)
  {
    MergedFacts(s.queue, found, Ids(s.index));
    hide Merged, Ids;
  }

  /** Behind every page that would halt the reading, all posts are held or stand before it. */
  ghost predicate NothingBehind(pages: seq<Page>, s: Stock) {
    var since, known := Watermark(s.index), Ids(s.index);
    forall i :: 0 <= i < |pages| && Halts(pages, since, known, i) ==> CoveredFrom(pages, s, i)
  }

  ghost predicate CoveredFrom(pages: seq<Page>, s: Stock, i: nat)
    requires i < |pages|
  {
    forall e :: e in Flat(pages[i + 1..]) ==> e.id in Held(s) + News(Flat(pages[..i + 1]), Watermark(s.index), Ids(s.index))
  }

  /** Every listed post older than the watermark is held, or its id is listed again among the wanted. */
  ghost predicate OlderHeld(pages: seq<Page>, s: Stock) {
    var since := Watermark(s.index);
    forall e :: e in Flat(pages) && Older(e, since) ==> e.id in Held(s) + News(Flat(pages), since, Ids(s.index))
  }

  lemma NewOrKnown(part: seq<Entry>, e: Entry, since: int, known: set<string>)
    requires e in part && !Older(e, since)
    ensures e.id in known + News(part, since, known)
  {
    var i :| 0 <= i < |part| && part[i] == e;
    if e.id !in known {
      assert Wanted(part[i], since, known) && part[i].id in News(part, since, known);
    }
  }

  lemma NewsListed(part: seq<Entry>, id: string, since: int, known: set<string>) returns (e: Entry)
    requires id in News(part, since, known)
    ensures e in part && e.id == id
  {
    var i :| 0 <= i < |part| && Wanted(part[i], since, known) && part[i].id == id;
    e := part[i];
  }

  lemma NewsGrow(pages: seq<Page>, n: nat, i: nat, since: int, known: set<string>)
    requires n <= i <= |pages|
    ensures News(Flat(pages[..n]), since, known) <= News(Flat(pages[..i]), since, known)
  {
    assert pages[..i][..n] == pages[..n];
    FlatSplit(pages[..i], n);
    NewsJoin(Flat(pages[..n]), Flat(pages[..i][n..]), since, known);
  }

  /**
   * A complete discovery, from any stock: afterwards every listed post is held if and
   * only if there was nothing behind the pages that would halt it, and what is listed as
   * older than the watermark was held or is listed again as wanted.
   */
  lemma DiscoverIff(pages: seq<Page>, s: Stock)
    requires WholeListing(pages)
    ensures var found := Fetched(pages, Watermark(s.index), Ids(s.index));
      found.Some? && (AllHeld(Flat(pages), Discovered(s, found.value)) <==> NothingBehind(pages, s) && OlderHeld(pages, s))
  {
    var since, known := Watermark(s.index), Ids(s.index);
    NoIds();
    NewsNone(since, known);
    assert Flat(pages[..0]) == [];
    var n := FetchStops(pages, since, known, 0, []);
    var found := Fetched(pages, since, known).value;
    DiscoveredHolds(s, found);
    var s' := Discovered(s, found);
    hide Discovered, Fetched, FetchFrom, News, Ids, Held, Halts, WholeListing, OlderHeld;
    if AllHeld(Flat(pages), s') {
      forall i | 0 <= i < |pages| && Halts(pages, since, known, i)
        ensures CoveredFrom(pages, s, i)
      {
        CoveredBy(pages, s, s', n, i);
      }
      OlderBy(pages, s, s', n);
    }
    if NothingBehind(pages, s) && OlderHeld(pages, s) {
      HeldBy(pages, s, s', n);
    }
  }

  lemma CoveredBy(pages: seq<Page>, s: Stock, s': Stock, n: nat, i: nat)
    requires n <= i < |pages| && AllHeld(Flat(pages), s')
    requires Held(s') == Held(s) + News(Flat(pages[..n + 1]), Watermark(s.index), Ids(s.index))
    ensures CoveredFrom(pages, s, i)
  {
    hide News, Ids, Held, Flat;
    var since, known := Watermark(s.index), Ids(s.index);
    NewsGrow(pages, n + 1, i + 1, since, known);
    forall e | e in Flat(pages[i + 1..])
      ensures e.id in Held(s) + News(Flat(pages[..i + 1]), since, known)
    {
      FlatSplit(pages, i + 1);
      assert e in Flat(pages);
    }
  }

  lemma OlderBy(pages: seq<Page>, s: Stock, s': Stock, n: nat)
    requires n < |pages| && AllHeld(Flat(pages), s')
    requires Held(s') == Held(s) + News(Flat(pages[..n + 1]), Watermark(s.index), Ids(s.index))
    ensures OlderHeld(pages, s)
  {
    hide News, Ids, Held, Flat;
    NewsGrow(pages, n + 1, |pages|, Watermark(s.index), Ids(s.index));
    assert pages[..|pages|] == pages;
  }

  /** What is wanted behind a page that would halt is held, or wanted up to that page. */
  lemma WantedUpTo(pages: seq<Page>, s: Stock, n: nat, id: string)
    requires n < |pages| && (n == |pages| - 1 || CoveredFrom(pages, s, n))
    requires id in News(Flat(pages), Watermark(s.index), Ids(s.index))
    ensures id in Held(s) + News(Flat(pages[..n + 1]), Watermark(s.index), Ids(s.index))
  {
    hide News, Ids, Held, Flat;
    var since, known := Watermark(s.index), Ids(s.index);
    if n == |pages| - 1 {
      assert pages[..n + 1] == pages;
    } else {
      FlatSplit(pages, n + 1);
      NewsJoin(Flat(pages[..n + 1]), Flat(pages[n + 1..]), since, known);
      if id in News(Flat(pages[n + 1..]), since, known) {
        var e := NewsListed(Flat(pages[n + 1..]), id, since, known);
      }
    }
  }

  lemma NoneAfter(pages: seq<Page>)
    requires pages != []
    ensures Flat(pages[|pages| - 1 + 1..]) == []
  {
    assert pages[|pages| - 1 + 1..] == [];
  }

  lemma HeldBy(pages: seq<Page>, s: Stock, s': Stock, n: nat)
    requires n < |pages| && OlderHeld(pages, s) && (n == |pages| - 1 || CoveredFrom(pages, s, n))
    requires Held(s') == Held(s) + News(Flat(pages[..n + 1]), Watermark(s.index), Ids(s.index))
    ensures AllHeld(Flat(pages), s')
  {
    FlatSplit(pages, n + 1);
    NoneAfter(pages);
    KnownHeld(s);
    hide News, Ids, Held, Flat, Older;
    var since, known := Watermark(s.index), Ids(s.index);
    forall e | e in Flat(pages)
      ensures e.id in Held(s')
    {
      if Older(e, since) {
        if e.id !in Held(s) {
          WantedUpTo(pages, s, n, e.id);
        }
      } else if e in Flat(pages[..n + 1]) {
        NewOrKnown(Flat(pages[..n + 1]), e, since, known);
      }
    }
  }

  lemma KnownHeld(s: Stock)
    ensures Ids(s.index) <= Held(s)
  {
  }

  /** When no unheld post is older than a held one, what is older than the watermark is held. */
  lemma OlderIsHeld(pages: seq<Page>, s: Stock)
    requires NoneOlder(Flat(pages), s)
    ensures OlderHeld(pages, s)
  {
    hide NoneOlder, Held, News, Watermark, Flat;
    forall e | e in Flat(pages) && Older(e, Watermark(s.index))
      ensures e.id in Held(s)
    {
      WatermarkHolds(Flat(pages), s, e);
    }
  }

  // ---- a listing in order ----

  ghost predicate Descending(es: seq<Entry>) {
    forall i, j :: 0 <= i < j < |es| ==> es[j].datetime <= es[i].datetime
  }

  /** Every page with posts has one that no earlier page has. */
  ghost predicate FreshPages(pages: seq<Page>) {
    forall i :: 0 <= i < |pages| && pages[i].entries != [] ==> Fresh(pages, i)
  }

  ghost predicate Fresh(pages: seq<Page>, i: nat)
    requires i < |pages|
  {
    exists e :: e in pages[i].entries && e.id !in Ids(Flat(pages[..i]))
  }

  lemma NewsAreIds(es: seq<Entry>, since: int, known: set<string>)
    ensures News(es, since, known) <= Ids(es)
  {
  }

  lemma FreshNotRepeated(pages: seq<Page>, i: nat, since: int, known: set<string>)
    requires i < |pages| && (pages[i].entries != [] ==> Fresh(pages, i))
    ensures !Repeats(pages[i].entries, since, known, News(Flat(pages[..i]), since, known))
  {
    hide News, Ids, Flat;
    if pages[i].entries != [] {
      var e :| e in pages[i].entries && e.id !in Ids(Flat(pages[..i]));
      NewsAreIds(Flat(pages[..i]), since, known);
      var j :| 0 <= j < |pages[i].entries| && pages[i].entries[j] == e;
    }
  }

  lemma JoinedOlder(a: seq<Entry>, b: seq<Entry>, c: seq<Entry>, since: int, e: Entry)
    requires Descending(a + b + c) && Crosses(b, since) && e in c
    ensures Older(e, since)
  {
    var j :| 0 <= j < |b| && Older(b[j], since);
    var k :| 0 <= k < |c| && c[k] == e;
    var all := a + b + c;
    assert all[|a| + j] == b[j] && all[|a| + |b| + k] == e;
  }

  lemma LaterIsOlder(pages: seq<Page>, i: nat, since: int, e: Entry)
    requires i < |pages| && Descending(Flat(pages)) && Crosses(pages[i].entries, since) && e in Flat(pages[i + 1..])
    ensures e in Flat(pages) && Older(e, since)
  {
    hide Flat, Descending, Crosses, Older, News;
    FlatSplit(pages, i + 1);
    FlatNext(pages, i, since, {});
    JoinedOlder(Flat(pages[..i]), pages[i].entries, Flat(pages[i + 1..]), since, e);
  }

  /** In a listing by descending time whose pages never repeat, nothing is behind: a complete discovery then misses none. */
  lemma OrderlyCovers(pages: seq<Page>, s: Stock)
    requires NoneOlder(Flat(pages), s) && Descending(Flat(pages)) && FreshPages(pages)
    ensures NothingBehind(pages, s)
  {
    hide News, Ids, Held, NoneOlder, Flat, Crosses, Repeats, Descending, Fresh;
    var since, known := Watermark(s.index), Ids(s.index);
    forall i | 0 <= i < |pages| && Halts(pages, since, known, i)
      ensures CoveredFrom(pages, s, i)
    {
      FreshNotRepeated(pages, i, since, known);
      forall e | e in Flat(pages[i + 1..])
        ensures e.id in Held(s)
      {
        LaterIsOlder(pages, i, since, e);
        WatermarkHolds(Flat(pages), s, e);
      }
    }
  }

  // ---- over any runs ----

  /** The listing as it stands and what is held. */
  datatype Moment = Moment(list: seq<Entry>, stock: Stock)

  ghost function TimesOf(es: seq<Entry>): set<int> {
    set e | e in es :: e.datetime
  }

  ghost function Times(s: Stock): set<int> {
    TimesOf(s.index) + TimesOf(s.queue)
  }

  /** The same posts, and no later time, in another arrangement. */
  ghost predicate Rests(s: Stock, s': Stock) {
    Held(s') == Held(s) && Times(s') <= Times(s)
  }

  /** A queued post is committed; after a crash it may still be in the queue file. */
  ghost predicate CommitStep(s: Stock, s': Stock, e: Entry, i: nat) {
    && i < |s.queue| && e.id == s.queue[i].id && e.datetime == s.queue[i].datetime
    && s'.index == s.index + [e] && (s'.queue == s.queue || s'.queue == NotIn(s.queue, {e.id}))
  }

  /** Opening takes the indexed posts out of the queue. */
  ghost predicate ReopenStep(s: Stock, s': Stock) {
    s' == s.(queue := NotIn(s.queue, Ids(s.index)))
  }

  /** A discovery read to its end, with nothing behind the page that halted it; one cut short changes nothing. */
  ghost predicate DiscoverStep(m: Moment, m': Moment, pages: seq<Page>) {
    && m'.list == m.list == Flat(pages) && WholeListing(pages) && NothingBehind(pages, m.stock)
    && Fetched(pages, Watermark(m.stock.index), Ids(m.stock.index)).Some?
    && m'.stock == Discovered(m.stock, Fetched(pages, Watermark(m.stock.index), Ids(m.stock.index)).value)
  }

  /** The listing changes: posts go, and those that come are no older than anything held. */
  ghost predicate RelistStep(m: Moment, m': Moment) {
    m'.stock == m.stock && forall e :: e in m'.list ==> e in m.list || e.id in Held(m.stock) || NotBefore(e, m.stock)
  }

  ghost predicate Settles(s: Stock, s': Stock) {
    s' == s || ReopenStep(s, s') || exists e, i :: CommitStep(s, s', e, i)
  }

  ghost predicate Step(m: Moment, m': Moment) {
    || (m'.list == m.list && Settles(m.stock, m'.stock))
    || RelistStep(m, m')
    || exists pages :: DiscoverStep(m, m', pages)
  }

  lemma TimesSnoc(es: seq<Entry>, e: Entry)
    ensures TimesOf(es + [e]) == TimesOf(es) + {e.datetime}
  {
    assert e in es + [e];
    assert forall h :: h in es ==> h in es + [e];
  }

  lemma TimesLess(es: seq<Entry>, ids: set<string>)
    ensures TimesOf(NotIn(es, ids)) <= TimesOf(es)
  {
  }

  lemma CommitRests(s: Stock, s': Stock, e: Entry, i: nat)
    requires CommitStep(s, s', e, i)
    ensures Rests(s, s')
  {
    IdsSnoc(s.index, e);
    NotInIds(s.queue, {e.id});
    TimesSnoc(s.index, e);
    TimesLess(s.queue, {e.id});
    assert s.queue[i] in s.queue;
    assert s.queue[i].id in Ids(s.queue);
    hide Ids, NotIn;
  }

  lemma ReopenRests(s: Stock, s': Stock)
    requires ReopenStep(s, s')
    ensures Rests(s, s')
  {
    NotInIds(s.queue, Ids(s.index));
    TimesLess(s.queue, Ids(s.index));
    hide Ids, NotIn;
  }

  lemma SettlesRests(s: Stock, s': Stock)
    requires Settles(s, s')
    ensures Rests(s, s')
  {
    hide CommitStep, ReopenStep, Held, Times;
    if s' != s {
      if ReopenStep(s, s') {
        ReopenRests(s, s');
      } else {
        var e, i :| CommitStep(s, s', e, i);
        CommitRests(s, s', e, i);
      }
    }
  }

  lemma RestsTrans(a: Stock, b: Stock, c: Stock)
    requires Rests(a, b) && Rests(b, c)
    ensures Rests(a, c)
  {
    hide Held, Times;
  }

  lemma RestsKeeps(list: seq<Entry>, s: Stock, s': Stock)
    requires NoneOlder(list, s) && Rests(s, s')
    ensures NoneOlder(list, s')
  {
    hide Held;
    forall e | e in list && e.id !in Held(s')
      ensures NotBefore(e, s')
    {
      assert NotBefore(e, s);
      forall h | h in s'.index || h in s'.queue
        ensures h.datetime <= e.datetime
      {
        assert h.datetime in Times(s');
        var g :| (g in s.index || g in s.queue) && g.datetime == h.datetime;
      }
    }
  }

  lemma RelistKeeps(m: Moment, m': Moment)
    requires NoneOlder(m.list, m.stock) && RelistStep(m, m')
    ensures NoneOlder(m'.list, m'.stock)
  {
    hide Held, NotBefore;
  }

  lemma HeldIsNone(list: seq<Entry>, s: Stock)
    requires AllHeld(list, s)
    ensures NoneOlder(list, s)
  {
    hide Held, NotBefore;
  }

  /** A discovery leaves every listed post held. */
  lemma DiscoverKeeps(m: Moment, m': Moment, pages: seq<Page>)
    requires NoneOlder(m.list, m.stock) && DiscoverStep(m, m', pages)
    ensures AllHeld(m'.list, m'.stock) && NoneOlder(m'.list, m'.stock) && Held(m.stock) <= Held(m'.stock)
  {
    hide NoneOlder, AllHeld, Held, NothingBehind, Fetched, Watermark, Ids, Discovered, WholeListing, OlderHeld;
    OlderIsHeld(pages, m.stock);
    DiscoverIff(pages, m.stock);
    DiscoveredHolds(m.stock, Fetched(pages, Watermark(m.stock.index), Ids(m.stock.index)).value);
    HeldIsNone(m'.list, m'.stock);
  }

  /** What one step keeps: no unheld post is older than a held one, and what is held stays held. */
  lemma StepKeeps(m: Moment, m': Moment)
    requires NoneOlder(m.list, m.stock) && Step(m, m')
    ensures NoneOlder(m'.list, m'.stock) && Held(m.stock) <= Held(m'.stock)
  {
    hide NoneOlder, Held, DiscoverStep, Settles, Times;
    if m'.list == m.list && Settles(m.stock, m'.stock) {
      SettlesRests(m.stock, m'.stock);
      RestsKeeps(m.list, m.stock, m'.stock);
    } else if RelistStep(m, m') {
      RelistKeeps(m, m');
    } else {
      var pages :| DiscoverStep(m, m', pages);
      DiscoverKeeps(m, m', pages);
    }
  }

  ghost predicate Chain(ms: seq<Moment>) {
    forall i :: 0 <= i < |ms| - 1 ==> Step(ms[i], ms[i + 1])
  }

  lemma ChainAt(ms: seq<Moment>, j: nat)
    requires Chain(ms) && 0 < j < |ms|
    ensures Step(ms[j - 1], ms[j])
  {
    hide Step;
    assert ms[j] == ms[j - 1 + 1];
  }

  /**
   * Over any commits, crashes, openings, discoveries and changes of the listing: what is
   * held stays held, and index and queue together hold every listed post older than the
   * watermark, so no later discovery need look behind it.
   */
  lemma {:induction false} RunsHold(ms: seq<Moment>, i: nat, j: nat)
    requires Chain(ms) && i <= j < |ms| && NoneOlder(ms[i].list, ms[i].stock)
    ensures NoneOlder(ms[j].list, ms[j].stock) && Held(ms[i].stock) <= Held(ms[j].stock)
    ensures forall e :: e in ms[j].list && Older(e, Watermark(ms[j].stock.index)) ==> e.id in Held(ms[j].stock)
    decreases j - i
  {
    hide NoneOlder, Held, Step, Chain, Watermark;
    if i < j {
      RunsHold(ms, i, j - 1);
      ChainAt(ms, j);
      StepKeeps(ms[j - 1], ms[j]);
    }
    forall e | e in ms[j].list && Older(e, Watermark(ms[j].stock.index))
      ensures e.id in Held(ms[j].stock)
    {
      WatermarkHolds(ms[j].list, ms[j].stock, e);
    }
  }

  /** So from an empty store, whatever is listed. */
  lemma FromNothing(ms: seq<Moment>, j: nat)
    requires Chain(ms) && j < |ms| && ms[0].stock == Stock([], [])
    ensures forall e :: e in ms[j].list && Older(e, Watermark(ms[j].stock.index)) ==> e.id in Held(ms[j].stock)
  {
    hide Chain, Held, Older, Watermark;
    RunsHold(ms, 0, j);
  }

  // ---- where the watermark misleads ----

  lemma {:induction false} CollectedWanted(out: seq<Entry>, es: seq<Entry>, since: int, known: set<string>)
    requires forall e :: e in out ==> Wanted(e, since, known)
    ensures forall e :: e in Collected(out, es, since, known) ==> Wanted(e, since, known)
  {
    if es != [] {
      CollectedWanted(out, es[..|es| - 1], since, known);
    }
  }

  /** Nothing older than the watermark is found by any reading. */
  lemma {:induction false} FoundWanted(pages: seq<Page>, since: int, known: set<string>, i: nat, out: seq<Entry>)
    requires forall e :: e in out ==> Wanted(e, since, known)
    ensures var r := FetchFrom(pages, since, known, i, out); r.Some? ==> forall e :: e in r.value ==> Wanted(e, since, known)
    decreases |pages| - i
  {
    hide Halts, Wanted;
    if i < |pages| {
      CollectedWanted(out, pages[i].entries, since, known);
      FoundWanted(pages, since, known, i + 1, Collected(out, pages[i].entries, since, known));
    }
  }

  lemma {:induction false} FoundOnce(pages: seq<Page>, since: int, known: set<string>, i: nat, out: seq<Entry>)
    requires OncePerId(out)
    ensures var r := FetchFrom(pages, since, known, i, out); r.Some? ==> OncePerId(r.value)
    decreases |pages| - i
  {
    hide Halts, Wanted, OncePerId, Ids, News;
    if i < |pages| {
      CollectedFacts(out, pages[i].entries, since, known);
      FoundOnce(pages, since, known, i + 1, Collected(out, pages[i].entries, since, known));
    }
  }

  /** What a reading finds: listed posts, each once, none of them known, and none older than a watermark there is. */
  lemma FoundFresh(pages: seq<Page>, since: int, known: set<string>)
    ensures var r := Fetched(pages, since, known);
      r.Some? ==> OncePerId(r.value) && forall e :: e in r.value ==>
        e in Flat(pages) && e.id !in known && !(since > 0 && e.datetime < since)
  {
    FoundWanted(pages, since, known, 0, []);
    FoundListed(pages, since, known, 0, []);
    FoundOnce(pages, since, known, 0, []);
  }

  lemma {:induction false} WatermarkGrows(es: seq<Entry>, e: Entry)
    ensures Watermark(es + [e]) >= Watermark(es) && Watermark(es + [e]) >= e.datetime
  {
    assert (es + [e])[..|es|] == es;
  }

  /** A post that is not held and is listed as older than the watermark is never found: no discovery, complete or not, takes it up. */
  lemma NeverFound(pages: seq<Page>, s: Stock, id: string)
    requires id !in Held(s) && forall e :: e in Flat(pages) && e.id == id ==> Older(e, Watermark(s.index))
    ensures var r := Fetched(pages, Watermark(s.index), Ids(s.index));
      r.Some? ==> id !in Held(Discovered(s, r.value))
  {
    var since, known := Watermark(s.index), Ids(s.index);
    var r := Fetched(pages, since, known);
    FoundWanted(pages, since, known, 0, []);
    FoundListed(pages, since, known, 0, []);
    if r.Some? {
      DiscoveredHolds(s, r.value);
      assert id !in Ids(r.value);
    }
  }

  lemma {:induction false} FoundListed(pages: seq<Page>, since: int, known: set<string>, i: nat, out: seq<Entry>)
    requires i <= |pages| && forall e :: e in out ==> e in Flat(pages[..i])
    ensures var r := FetchFrom(pages, since, known, i, out); r.Some? ==> forall e :: e in r.value ==> e in Flat(pages)
    decreases |pages| - i
  {
    hide Halts, Wanted, Ids, News, Flat;
    if i < |pages| {
      CollectedFacts(out, pages[i].entries, since, known);
      FlatNext(pages, i, since, known);
      InFlat(pages, i + 1, Collected(out, pages[i].entries, since, known));
      FoundListed(pages, since, known, i + 1, Collected(out, pages[i].entries, since, known));
    }
  }

  /** A step that takes no care of what lies behind: a commit, an opening, or a discovery of any pages that list the post no later than t. */
  ghost predicate AnyStep(s: Stock, s': Stock, id: string, t: int) {
    Settles(s, s') || exists pages :: AnyDiscovery(s, s', pages, id, t)
  }

  ghost predicate AnyDiscovery(s: Stock, s': Stock, pages: seq<Page>, id: string, t: int) {
    && (forall e :: e in Flat(pages) && e.id == id ==> e.datetime <= t)
    && Fetched(pages, Watermark(s.index), Ids(s.index)).Some?
    && s' == Discovered(s, Fetched(pages, Watermark(s.index), Ids(s.index)).value)
  }

  ghost predicate Missed(s: Stock, id: string, t: int) {
    id !in Held(s) && Watermark(s.index) > 0 && t < Watermark(s.index)
  }

  lemma MissedStep(s: Stock, s': Stock, id: string, t: int)
    requires Missed(s, id, t) && AnyStep(s, s', id, t)
    ensures Missed(s', id, t)
  {
    hide Held, Watermark, Ids, Fetched, Flat;
    if Settles(s, s') {
      hide Discovered;
      SettlesRests(s, s');
      if e, i :| CommitStep(s, s', e, i) {
        WatermarkGrows(s.index, e);
      }
    } else {
      var pages :| AnyDiscovery(s, s', pages, id, t);
      NeverFound(pages, s, id);
    }
  }

  /** Over any runs, a post missed once stays missed. */
  lemma {:induction false} StaysMissed(ss: seq<Stock>, id: string, t: int, j: nat)
    requires j < |ss| && Missed(ss[0], id, t) && forall i :: 0 <= i < |ss| - 1 ==> AnyStep(ss[i], ss[i + 1], id, t)
    ensures id !in Held(ss[j]) && Missed(ss[j], id, t)
  {
    if j > 0 {
      StaysMissed(ss, id, t, j - 1);
      assert AnyStep(ss[j - 1], ss[j - 1 + 1], id, t);
      hide AnyStep;
      MissedStep(ss[j - 1], ss[j], id, t);
    }
  }

  const OLD := Entry("w", 10, "", "", 0)
  const MISSED := Entry("m", 20, "", "", 0)
  const NEW := Entry("n", 30, "", "", 0)
  /** A post whose message carries no time. */
  const UNDATED := Entry("u", 0, "", "", 0)

  const SERVED := [Page([NEW, UNDATED], More), Page([MISSED, OLD], Last)]
  const ONE := [Page([NEW, UNDATED], Last)]

  lemma OneId(e: Entry)
    ensures Ids([e]) == {e.id}
  {
    assert [e][0].id == e.id;
  }

  lemma FirstPage(since: int, known: set<string>)
    requires since == 10 && known == {"w"}
    ensures Collected([], [NEW, UNDATED], since, known) == [NEW] && Crosses([NEW, UNDATED], since)
  {
    hide Ids;
    NoIds();
    var es := [NEW, UNDATED];
    assert es[..1] == [NEW] && es[..1][..0] == [];
    assert Older(es[1], since);
    assert Collected([], es[..1], since, known) == [NEW];
  }

  const BEFORE := Stock([OLD], [])
  const AFTER := Stock([OLD, NEW], [])

  lemma Stocks()
    ensures Watermark(BEFORE.index) == 10 && Ids(BEFORE.index) == {"w"} == Held(BEFORE)
    ensures Watermark(AFTER.index) == 30 && Ids(AFTER.index) == {"w", "n"} == Held(AFTER)
  {
    OneId(OLD);
    NoIds();
    IdsSnoc([OLD], NEW);
    assert [OLD] + [NEW] == [OLD, NEW] && [OLD, NEW][..1] == [OLD] && [OLD][..0] == [];
    hide Ids;
  }

  lemma StopsThere()
    ensures Fetched(SERVED, 10, {"w"}) == Some([NEW]) && Halts(SERVED, 10, {"w"}, 0)
  {
    FirstPage(10, {"w"});
    hide Collected, Crosses, Flat, News, Repeats;
  }

  lemma FirstFlat()
    ensures Flat(ONE) == [NEW, UNDATED] == Flat(SERVED[..1]) && Flat(SERVED[1..]) == [MISSED, OLD]
  {
    assert ONE[..0] == [];
    assert SERVED[..1] == [Page([NEW, UNDATED], More)] && SERVED[..1][..0] == [];
    assert SERVED[1..] == [Page([MISSED, OLD], Last)] && SERVED[1..][..0] == [];
  }

  lemma LeftBehind()
    ensures !CoveredFrom(SERVED, BEFORE, 0)
  {
    Stocks();
    FirstFlat();
    assert MISSED in Flat(SERVED[1..]);
    hide Held, Flat, Watermark, Ids;
    NewsAreIds([NEW, UNDATED], 10, {"w"});
    TwoIds(NEW, UNDATED);
  }

  /** Nowhere is the undated post wanted, so it is not held. */
  lemma UndatedUnheld(pages: seq<Page>)
    requires UNDATED in Flat(pages) && forall e :: e in Flat(pages) && e.id == UNDATED.id ==> e == UNDATED
    ensures !OlderHeld(pages, BEFORE)
  {
    Stocks();
    hide Held, Flat, Watermark, Ids;
    NeverNews(Flat(pages), UNDATED.id, 10, {"w"});
  }

  lemma NeverNews(part: seq<Entry>, id: string, since: int, known: set<string>)
    requires forall e :: e in part && e.id == id ==> Older(e, since)
    ensures id !in News(part, since, known)
  {
  }

  lemma ServedUnheld()
    ensures !OlderHeld(SERVED, BEFORE)
  {
    FlatSplit(SERVED, 1);
    FirstFlat();
    assert Flat(SERVED)[1] == UNDATED;
    hide Flat, OlderHeld;
    UndatedUnheld(SERVED);
  }

  lemma OneUnheld()
    ensures UNDATED in Flat(ONE) && !OlderHeld(ONE, BEFORE)
  {
    FirstFlat();
    assert Flat(ONE)[1] == UNDATED;
    hide Flat, OlderHeld;
    UndatedUnheld(ONE);
  }

  /** Without the undated post nothing would be out of order. */
  lemma RestInOrder()
    ensures NoneOlder([NEW, MISSED, OLD], BEFORE)
  {
    Stocks();
    hide Held;
  }

  lemma OneRead()
    ensures WholeListing(ONE) && Fetched(ONE, Watermark(BEFORE.index), Ids(BEFORE.index)) == Some([NEW])
  {
    Stocks();
    FirstPage(10, {"w"});
    hide Collected, Crosses, Flat, News, Repeats;
  }

  lemma OneCovered()
    ensures NothingBehind(ONE, BEFORE)
  {
    NoneAfter(ONE);
    hide Flat, Held, Ids, News, Watermark, Crosses, Repeats;
    forall i | 0 <= i < |ONE|
      ensures CoveredFrom(ONE, BEFORE, i)
    {
      assert i == |ONE| - 1;
    }
  }

  lemma TwoIds(a: Entry, b: Entry)
    ensures Ids([a, b]) == {a.id, b.id}
  {
    OneId(a);
    IdsSnoc([a], b);
    assert [a] + [b] == [a, b];
  }

  lemma StoppedShort()
    ensures WholeListing(SERVED) && Fetched(SERVED, Watermark(BEFORE.index), Ids(BEFORE.index)) == Some([NEW])
    ensures !NothingBehind(SERVED, BEFORE)
  {
    Stocks();
    StopsThere();
    LeftBehind();
    hide Fetched, FetchFrom, Flat, Held, Ids, Watermark, CoveredFrom, Halts;
    assert Halts(SERVED, 10, {"w"}, 0) && !CoveredFrom(SERVED, BEFORE, 0);
  }

  lemma NowMissed()
    ensures Missed(AFTER, MISSED.id, MISSED.datetime)
  {
    Stocks();
    hide Held, Ids, Watermark;
  }

  lemma NowSkipped()
    ensures Missed(Discovered(BEFORE, [NEW]), UNDATED.id, UNDATED.datetime)
  {
    Stocks();
    hide Held, Ids, Watermark, Merged;
    DiscoveredHolds(BEFORE, [NEW]);
    OneId(NEW);
  }

  /**
   * An undated post between two new ones counts as older than everything: the reading
   * stops at its page, only the newer post is found, and once that one is committed the
   * watermark lies above the other, which no later discovery takes up.
   */
  lemma UndatedMissed(later: seq<Stock>, j: nat)
    requires j < |later| && later[0] == AFTER
    requires forall i :: 0 <= i < |later| - 1 ==> AnyStep(later[i], later[i + 1], MISSED.id, MISSED.datetime)
    ensures NoneOlder([NEW, MISSED, OLD], BEFORE)
    ensures WholeListing(SERVED) && Fetched(SERVED, Watermark(BEFORE.index), Ids(BEFORE.index)) == Some([NEW])
    ensures !NothingBehind(SERVED, BEFORE) && !OlderHeld(SERVED, BEFORE)
    ensures CommitStep(Discovered(BEFORE, [NEW]), AFTER, NEW, 0)
    ensures MISSED.id !in Held(later[j])
  {
    hide *;
    RestInOrder();
    StoppedShort();
    ServedUnheld();
    NewQueued();
    NowMissed();
    StaysMissed(later, MISSED.id, MISSED.datetime, j);
  }

  /**
   * One page, so nothing lies behind it, an undated post on it: the reading comes to its
   * end without it, and no later discovery takes it up.
   */
  lemma UndatedSkipped(later: seq<Stock>, j: nat)
    requires j < |later| && later[0] == Discovered(BEFORE, [NEW])
    requires forall i :: 0 <= i < |later| - 1 ==> AnyStep(later[i], later[i + 1], UNDATED.id, UNDATED.datetime)
    ensures WholeListing(ONE) && Fetched(ONE, Watermark(BEFORE.index), Ids(BEFORE.index)) == Some([NEW])
    ensures NothingBehind(ONE, BEFORE) && !OlderHeld(ONE, BEFORE)
    ensures UNDATED in Flat(ONE) && UNDATED.id !in Held(later[j])
  {
    hide *;
    OneRead();
    OneCovered();
    OneUnheld();
    NowSkipped();
    StaysMissed(later, UNDATED.id, UNDATED.datetime, j);
  }

  lemma SortOne(e: Entry, key: Entry -> int)
    ensures SortBy([e], key) == [e]
  {
    assert [e][..0] == [];
  }

  lemma FirstOfOne(e: Entry)
    ensures FirstOnly([e]) == [e]
  {
    assert [e][..0] == [];
  }

  lemma MergedOne(e: Entry, ids: set<string>)
    requires e.id !in ids
    ensures Merged([], [e], ids) == [e]
  {
    OneId(e);
    hide Ids, NotIn, FirstOnly, SortBy;
    NotInNone([e], ids);
    FirstOfOne(e);
    SortOne(e, (x: Entry) => x.datetime);
    assert [] + [e] == [e];
  }

  lemma NotInItself(e: Entry)
    ensures NotIn([e], {e.id}) == []
  {
    assert [e][..0] == [];
  }

  lemma NewQueued()
    ensures Discovered(BEFORE, [NEW]).queue == [NEW] && CommitStep(Discovered(BEFORE, [NEW]), AFTER, NEW, 0)
  {
    Stocks();
    hide Ids, NotIn, Held, Watermark, Merged;
    MergedOne(NEW, {"w"});
    NotInItself(NEW);
  }
}
