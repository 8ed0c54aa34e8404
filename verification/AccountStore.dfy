/**
 * The account store. `trail` is every disk passed through, torn appends included; at
 * each of them a reader finds either what was there before the operation or what is
 * there after it.
 */
module AccountStore {
  import opened Common
  import opened JsonLines
  import opened StableSort
  import opened AccountDisk
  import opened AccountHistory

  /** The merged queue: not indexed, each post once, by publishing time. */
  function Merged(queue: seq<Entry>, more: seq<Entry>, ids: set<string>): (r: seq<Entry>) {
    SortBy(FirstOnly(NotIn(queue + more, ids)), (e: Entry) => e.datetime)
  }

  lemma MergedFacts(queue: seq<Entry>, more: seq<Entry>, ids: set<string>)
    ensures var r := Merged(queue, more, ids);
      && Ascending(r, (e: Entry) => e.datetime) && OncePerId(r)
      && Ids(r) == (Ids(queue) + Ids(more)) - ids
  {
    var kept := NotIn(queue + more, ids);
    var once := FirstOnly(kept);
    IdsJoin(queue, more);
    NotInIds(queue + more, ids);
    FirstOnlyIds(kept);
    SortSame(once, (e: Entry) => e.datetime);
    SortAscending(once, (e: Entry) => e.datetime);
    hide Ids, NotIn, FirstOnly, SortBy;
    OnceSame(once, Merged(queue, more, ids));
  }

  /** Every disk of a list reads as one of two states. */
  ghost predicate AllHold(f: Format, more: seq<Disk>, es0: seq<Entry>, p0: seq<Entry>, es1: seq<Entry>, p1: seq<Entry>) {
    forall i :: 0 <= i < |more| ==>
      Holds(f, more[i], es0, p0) || Holds(f, more[i], es1, p0) || Holds(f, more[i], es1, p1)
  }

  /** An unbroken chain of steps up to a disk. */
  ghost predicate Tracked(f: Format, trail: seq<Disk>, d: Disk) {
    trail != [] && trail[|trail| - 1] == d && Chain(f, trail)
  }

  lemma TrackedNext(f: Format, trail: seq<Disk>, d: Disk, d': Disk)
    requires Tracked(f, trail, d) && FileStep(f, d, d')
    ensures Tracked(f, trail + [d'], d')
  {
    hide FileStep;
    var t := trail + [d'];
    forall i | 0 <= i < |t| - 1
      ensures FileStep(f, t[i], t[i + 1])
    {
      if i < |trail| - 1 {
        assert FileStep(f, trail[i], trail[i + 1]);
      }
    }
  }

  class Store {
    const format: Format
    var disk: Disk
    var index: seq<Entry>
    var ids: set<string>
    var pending: seq<Entry>
    ghost var queued: seq<Entry>
    ghost var trail: seq<Disk>

    /** Memory and disk agree, and no post is both indexed and pending. */
    ghost predicate Open()
      reads this
    {
      && format.Valid() && Holds(format, disk, index, queued) && Tracked(format, trail, disk)
      && ids == Ids(index) && pending == NotIn(queued, ids)
    }

    /** Fit for commits, too: the index file ends with a whole line. */
    ghost predicate Valid()
      reads this
    {
      Open() && Whole(disk.index)
    }

    /**
     * Opening the store on whatever disk was left. It is fit for further commits exactly
     * when the last index line was not torn.
     */
    constructor (format: Format, d: Disk, ghost es: seq<Entry>, ghost p: seq<Entry>, ghost past: seq<Disk>)
      requires format.Valid() && Holds(format, d, es, p) && Tracked(format, past, d)
      ensures this.format == format && index == es && queued == p && pending == NotIn(p, Ids(es)) && ids == Ids(es)
      ensures disk == d.(staging := None) && trail == past + [disk]
      ensures Open() && (Valid() <==> Whole(d.index))
    {
      this.format, disk, index, ids, pending, queued, trail := format, d, [], {}, [], p, past;
      new;
      hide Lines, Holds, NotIn, Tracked, Decoded;
      HoldsFacts(format, d, es, p);
      ReadsBack(format, es);
      ReadsBack(format, p);
      var lines := ReadLines(d.index);
      var entries := ReadEntries(format, lines);
      index := entries.value;
      ids := set e | e in index :: e.id;
      IdsAre(index);
      lines := ReadLines(d.queue);
      entries := ReadEntries(format, lines);
      pending := NotIn(entries.value, ids);
      Elsewhere(format, d, d.(staging := None), es, p);
      assert StageStep(d, d.(staging := None));
      Put(disk.(staging := None));
    }

    /** One file step. */
    method Put(d: Disk)
      requires Tracked(format, trail, disk) && FileStep(format, disk, d)
      modifies this`disk, this`trail
      ensures disk == d && trail == old(trail) + [d] && Tracked(format, trail, disk)
    {
      hide FileStep;
      TrackedNext(format, trail, disk, d);
      disk := d;
      trail := trail + [d];
    }

    /** Merges newly found posts into the queue, and writes it as one file, after a torn line as well. */
    method SetPending(entries: seq<Entry>)
      requires Open()
      modifies this
      ensures Open() && index == old(index) && pending == Merged(old(pending), entries, old(ids))
      ensures Ids(pending) == (old(Ids(pending)) + Ids(entries)) - ids
      ensures trail == old(trail) + [disk] && disk == old(disk).(queue := Jsonl(format, pending))
    {
      hide Ids, NotIn, FirstOnly, SortBy, Lines, OncePerId, Complete, Jsonl, Whole, Tracked;
      NotInIds(queued, ids);
      MergedFacts(pending, entries, ids);
      pending := Merged(pending, entries, ids);
      NotInNone(pending, ids);
      FlushPending();
    }

    /** Writes the queue file anew, in one rename. */
    method FlushPending()
      requires format.Valid() && Holds(format, disk, index, queued) && ids == Ids(index)
      requires Tracked(format, trail, disk) && Ids(queued) - ids <= Ids(pending)
      requires OncePerId(pending) && NotIn(pending, ids) == pending
      modifies this`disk, this`trail, this`queued
      ensures Open() && queued == pending
      ensures trail == old(trail) + [disk] && disk == old(disk).(queue := Jsonl(format, pending))
    {
      hide Ids, NotIn, Lines, Complete, Jsonl, Whole, Tracked, Holds, FileStep, OncePerId;
      HoldsGood(format, disk, index, queued);
      QueueHolds(format, disk, index, queued, pending);
      FlushStep(format, disk, index, queued, pending);
      Put(disk.(queue := Jsonl(format, pending)));
      queued := pending;
    }

    /** One more state of the staging area. */
    method SetStaging(c: Option<Content>, ghost d0: Disk, ghost before: seq<Disk>) returns (ghost more: seq<Disk>)
      requires Holds(format, d0, index, queued) && AllSame(format, before, index, queued) && disk == d0.(staging := disk.staging)
      requires Tracked(format, trail, disk)
      modifies this`disk, this`trail
      ensures disk == d0.(staging := c) && trail == old(trail) + [disk] && Tracked(format, trail, disk)
      ensures more == before + [disk] && AllSame(format, more, index, queued)
    {
      hide Holds, Tracked;
      Elsewhere(format, d0, d0.(staging := c), index, queued);
      assert StageStep(disk, disk.(staging := c));
      Put(disk.(staging := c));
      more := before + [disk];
    }

    /** Puts the whole article in the staging area, files first. */
    method Stage(markdown: string, assets: map<string, string>) returns (ghost more: seq<Disk>)
      requires Valid()
      modifies this`disk, this`trail
      ensures trail == old(trail) + more && AllSame(format, more, index, queued)
      ensures disk == old(disk).(staging := Some(Doc(markdown, assets))) && Tracked(format, trail, disk)
    {
      hide Holds, Whole, AllSame, Texts, NotIn, Ids, Tracked;
      ghost var d0 := disk;
      NoneYet(format, index, queued);
      more := SetStaging(None, d0, []);
      more := StageFiles(assets, d0, more);
      more := SetStaging(Some(Doc(markdown, assets)), d0, more);
    }

    method StageFiles(assets: map<string, string>, ghost d0: Disk, ghost before: seq<Disk>) returns (ghost more: seq<Disk>)
      requires Holds(format, d0, index, queued) && AllSame(format, before, index, queued) && disk == d0.(staging := disk.staging)
      requires Tracked(format, trail, disk)
      modifies this`disk, this`trail
      ensures disk == d0.(staging := Some(Draft(assets))) && AllSame(format, more, index, queued) && Tracked(format, trail, disk)
      ensures before <= more && trail == old(trail) + more[|before|..]
    {
      hide Holds, AllSame, Tracked;
      more := SetStaging(Some(Draft(map[])), d0, before);
      var todo, written := assets.Keys, map[];
      while todo != {}
        invariant todo <= assets.Keys && written.Keys == assets.Keys - todo
        invariant forall k :: k in written ==> written[k] == assets[k]
        invariant disk == d0.(staging := Some(Draft(written))) && AllSame(format, more, index, queued)
        invariant before <= more && trail == old(trail) + more[|before|..] && Tracked(format, trail, disk)
        decreases |todo|
      {
        var name :| name in todo;
        todo := todo - {name};
        written := written[name := assets[name]];
        more := SetStaging(Some(Draft(written)), d0, more);
      }
      assert written == assets;
    }

    /** Makes room for the article's directory and moves it there whole. */
    method Place(entry: Entry, markdown: string, assets: map<string, string>) returns (ghost more: seq<Disk>)
      requires Valid() && entry.id !in ids
      modifies this`disk, this`trail
      ensures Valid() && trail == old(trail) + more && AllSame(format, more, index, queued)
      ensures disk == old(disk).(dirs := old(disk.dirs)[format.name(entry) := Doc(markdown, assets)], staging := None)
    {
      hide Holds, Whole, Tracked, FileStep, AllSame, Ids, NotIn;
      ghost var d0 := disk;
      more := Stage(markdown, assets);
      var finalDir := format.name(entry);
      Elsewhere(format, d0, disk, index, queued);
      if finalDir in disk.dirs {
        var left: Content := *;
        OneDir(format, disk, disk.(dirs := disk.dirs[finalDir := left]), index, queued, entry, more);
        Put(disk.(dirs := disk.dirs[finalDir := left]));
        more := more + [disk];
        OneDir(format, disk, disk.(dirs := disk.dirs - {finalDir}), index, queued, entry, more);
        Put(disk.(dirs := disk.dirs - {finalDir}));
        more := more + [disk];
      }
      ghost var d1 := disk.(dirs := disk.dirs[finalDir := Doc(markdown, assets)], staging := None);
      OneDir(format, disk, d1, index, queued, entry, more);
      Put(disk.(dirs := disk.dirs[finalDir := Doc(markdown, assets)], staging := None));
      more := more + [disk];
      assert disk.dirs == d0.dirs[finalDir := Doc(markdown, assets)];
    }

    /** The append that commits: cut short anywhere, it reads as if never begun. */
    method AppendIndex(e: Entry) returns (ghost more: seq<Disk>)
      requires Valid() && e.id !in ids
      requires e.dir != "" ==> e.dir == format.name(e) && e.dir in disk.dirs && disk.dirs[e.dir].Doc?
      modifies this`disk, this`trail
      ensures disk == old(disk).(index := old(disk.index) + format.enc(e) + [NEWLINE])
      ensures Whole(disk.index) && Holds(format, disk, index + [e], queued)
      ensures trail == old(trail) + more && AllEither(format, more, index, index + [e], queued)
      ensures Tracked(format, trail, disk)
    {
      hide Holds, Whole, Lines, Tracked, FileStep, Ids, NotIn;
      ghost var d0 := disk;
      var line, whole := format.enc(e), disk.index;
      var n :| 0 <= n <= |line|;
      var torn := whole + line[..n];
      CommitSteps(format, d0, index, queued, e, n);
      Put(disk.(index := torn));
      more := [disk];
      AppendHolds(format, d0, index, queued, e);
      Put(disk.(index := whole + line + [NEWLINE]));
      more := more + [disk];
    }

    /**
     * Commits a post, or with empty markdown a tombstone without a directory. Whenever
     * the program may stop, a reader finds the index without the post or with it, never
     * anything between, and the post is never lost from both index and queue.
     */
    method Commit(entry: Entry, markdown: string, assets: map<string, string>) returns (ghost more: seq<Disk>)
      requires Valid() && entry.id !in ids && entry.dir == ""
      modifies this
      ensures Valid()
      ensures var e := CommittedAs(format, entry, markdown, assets);
        && index == old(index) + [e] && disk.index == old(disk.index) + format.enc(e) + [NEWLINE]
        && trail == old(trail) + more && AllHold(format, more, old(index), old(queued), index, pending)
      ensures var e := index[|old(index)|];
        && (markdown == "" ==> e == entry)
        && (markdown != "" ==> e == entry.(dir := format.name(entry), assets := |assets|))
      ensures ids == old(ids) + {entry.id} && pending == NotIn(old(pending), {entry.id}) == queued
      ensures disk.dirs == if markdown == "" then old(disk.dirs) else old(disk.dirs)[format.name(entry) := Doc(markdown, assets)]
    {
      hide Holds, Whole, Lines, Ids, NotIn, OncePerId, AllSame, AllEither, AllHold, Jsonl, Tracked;
      ghost var index0, queued0 := index, queued;
      NoneYet(format, index, queued);
      var e := CommittedAs(format, entry, markdown, assets);
      more := [];
      if markdown != "" {
        more := Place(entry, markdown, assets);
      }
      ghost var tail := AppendIndex(e);
      IdsSnoc(index, e);
      index := index + [e];
      QueueLess(queued, ids, entry.id);
      HoldsOnce(format, disk, index, queued);
      ids := ids + {e.id};
      pending := NotIn(pending, {e.id});
      NotInOnce(queued, ids);
      NotInIds(queued, ids);
      NotInTwice(queued, ids, ids);
      assert ids + ids == ids;
      FlushPending();
      JoinHold(format, more, tail, disk, index0, queued0, index, pending);
      more := more + tail + [disk];
    }
  }

  lemma {:induction false} NotInNone(es: seq<Entry>, ids: set<string>)
    requires Ids(es) !! ids
    ensures NotIn(es, ids) == es
  {
    if es != [] {
      var n := |es| - 1;
      IdsSnoc(es[..n], es[n]);
      assert es[..n] + [es[n]] == es;
      NotInNone(es[..n], ids);
    }
  }

  lemma HoldsFacts(f: Format, d: Disk, es: seq<Entry>, p: seq<Entry>)
    requires Holds(f, d, es, p)
    ensures Lines(d.index, 0) == Texts(f, es) && Lines(d.queue, 0) == Texts(f, p)
  {
  }

  lemma IdsAre(es: seq<Entry>)
    ensures Ids(es) == set e | e in es :: e.id
  {
  }

  /** Reads lines back as entries, or stops at one that is none. */
  method ReadEntries(f: Format, lines: seq<string>) returns (r: Option<seq<Entry>>)
    ensures r == Decoded(f, lines)
  {
    var es := [];
    var i := 0;
    while i < |lines|
      invariant 0 <= i <= |lines| && Decoded(f, lines[..i]) == Some(es)
    {
      assert lines[..i + 1][..i] == lines[..i];
      var e := f.dec(lines[i]);
      if e.None? {
        BadPrefix(f, lines, i + 1);
        return None;
      }
      es := es + [e.value];
      i := i + 1;
    }
    assert lines[..i] == lines;
    return Some(es);
  }

  lemma {:induction false} BadPrefix(f: Format, lines: seq<string>, i: nat)
    requires i <= |lines| && Decoded(f, lines[..i]) == None
    ensures Decoded(f, lines) == None
  {
    if i == |lines| {
      assert lines[..i] == lines;
    } else {
      assert lines[..|lines| - 1][..i] == lines[..i];
      BadPrefix(f, lines[..|lines| - 1], i);
    }
  }

  /** Every disk of a list reads as index es and queue p. */
  ghost predicate AllSame(f: Format, more: seq<Disk>, es: seq<Entry>, p: seq<Entry>) {
    forall i :: 0 <= i < |more| ==> Holds(f, more[i], es, p)
  }

  lemma NoneYet(f: Format, es: seq<Entry>, p: seq<Entry>)
    ensures AllSame(f, [], es, p)
  {
  }

  // ---- committing ----

  function CommittedAs(f: Format, entry: Entry, markdown: string, assets: map<string, string>): Entry {
    if markdown == "" then entry else entry.(dir := f.name(entry), assets := |assets|)
  }

  /** Every disk of a list reads as one of two indexes. */
  ghost predicate AllEither(f: Format, more: seq<Disk>, es0: seq<Entry>, es1: seq<Entry>, p: seq<Entry>) {
    forall i :: 0 <= i < |more| ==> Holds(f, more[i], es0, p) || Holds(f, more[i], es1, p)
  }

  /** One change to the post's own directory. */
  lemma OneDir(f: Format, d: Disk, d': Disk, es: seq<Entry>, p: seq<Entry>, entry: Entry, more: seq<Disk>)
    requires f.Valid() && Holds(f, d, es, p) && entry.id !in Ids(es) && AllSame(f, more, es, p)
    requires d'.dirs - {f.name(entry)} == d.dirs - {f.name(entry)} && d' == d.(dirs := d'.dirs, staging := d'.staging)
    ensures FileStep(f, d, d') && Holds(f, d', es, p) && AllSame(f, more + [d'], es, p)
  {
    NotOwned(f, d, es, p, entry);
    hide Lines, OncePerId, Ids, Holds, Format.Valid;
    OwnDir(f, d, d', es, p, f.name(entry));
    HoldsGood(f, d, es, p);
    assert DirStep(f, d, d', f.name(entry));
  }

  lemma FlushStep(f: Format, d: Disk, es: seq<Entry>, p: seq<Entry>, q: seq<Entry>)
    requires f.Valid() && Holds(f, d, es, p) && OncePerId(q) && Ids(p) - Ids(es) <= Ids(q)
    ensures FileStep(f, d, d.(queue := Jsonl(f, q)))
  {
    hide Lines, OncePerId, Ids, Holds, Jsonl;
    HoldsGood(f, d, es, p);
    assert QueueStep(f, d, d.(queue := Jsonl(f, q)), q);
  }

  /** An append, its beginning and its end. */
  lemma CommitSteps(f: Format, d: Disk, es: seq<Entry>, p: seq<Entry>, e: Entry, n: nat)
    requires f.Valid() && Whole(d.index) && Holds(f, d, es, p) && e.id !in Ids(es) && n <= |f.enc(e)|
    requires e.dir != "" ==> e.dir == f.name(e) && e.dir in d.dirs && d.dirs[e.dir].Doc?
    ensures var d1 := d.(index := d.index + f.enc(e)[..n]);
      && FileStep(f, d, d1) && Holds(f, d1, es, p)
      && FileStep(f, d1, d.(index := d.index + f.enc(e) + [NEWLINE]))
  {
    var d1 := d.(index := d.index + f.enc(e)[..n]);
    assert Unbroken(f.enc(e));
    hide Lines, OncePerId, Ids, Holds, Unbroken, Whole;
    HoldsGood(f, d, es, p);
    assert TornStep(f, d, d1, e, n);
    TornHolds(f, d, es, p, f.enc(e), n);
    HoldsGood(f, d1, es, p);
    assert LineStep(f, d1, d.(index := d.index + f.enc(e) + [NEWLINE]), d.index, e, n);
  }

  lemma HoldsOnce(f: Format, d: Disk, es: seq<Entry>, p: seq<Entry>)
    requires Holds(f, d, es, p)
    ensures OncePerId(p)
  {
  }

  lemma QueueLess(queued: seq<Entry>, ids: set<string>, id: string)
    ensures NotIn(NotIn(queued, ids), {id}) == NotIn(queued, ids + {id})
  {
    NotInTwice(queued, ids, {id});
  }

  lemma JoinHold(f: Format, a: seq<Disk>, b: seq<Disk>, d: Disk, es0: seq<Entry>, p0: seq<Entry>, es1: seq<Entry>, p1: seq<Entry>)
    requires AllSame(f, a, es0, p0) && AllEither(f, b, es0, es1, p0) && Holds(f, d, es1, p1)
    ensures AllHold(f, a + b + [d], es0, p0, es1, p1)
  {
    hide Holds;
  }

  /**
   * What a torn commit leads to: the next one is read back as its own entry exactly when
   * no line was torn; `AccountHistory.TornRefused` says what becomes of the file otherwise.
   */
  lemma AfterTorn(f: Format, d: Disk, es: seq<Entry>, p: seq<Entry>, e: Entry)
    requires f.Valid() && Holds(f, d, es, p)
    ensures Lines(d.index + f.enc(e) + [NEWLINE], 0) == Texts(f, es + [e]) <==> Whole(d.index)
  {
    hide Lines, Unbroken;
    AppendReadable(d.index, f.enc(e));
    assert Texts(f, es + [e]) == Texts(f, es) + [f.enc(e)];
  }
}
