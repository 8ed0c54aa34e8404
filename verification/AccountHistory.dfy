/**
 * Every single step the program makes on the account store's files, what any history of
 * such steps keeps, and where a torn line leads.
 */
module AccountHistory {
  import opened Common
  import opened JsonLines
  import opened AccountDisk

  // ---- reading ----

  /** The entries of some lines; None when a line is no entry, which the program refuses. */
  function Decoded(f: Format, lines: seq<string>): Option<seq<Entry>> {
    if lines == [] then Some([])
    else
      var n := |lines| - 1;
      var init, last := Decoded(f, lines[..n]), f.dec(lines[n]);
      if init.None? || last.None? then None else Some(init.value + [last.value])
  }

  function Reading(f: Format, text: string): Option<seq<Entry>> {
    Decoded(f, Lines(text, 0))
  }

  lemma {:induction false} ReadsBack(f: Format, es: seq<Entry>)
    requires f.Valid()
    ensures Decoded(f, Texts(f, es)) == Some(es)
  {
    if es != [] {
      var n := |es| - 1;
      ReadsBack(f, es[..n]);
      assert Texts(f, es)[..n] == Texts(f, es[..n]);
      assert f.dec(f.enc(es[n])) == Some(es[n]);
      assert es[..n] + [es[n]] == es;
    }
  }

  ghost function IndexOf(f: Format, d: Disk): seq<Entry> {
    var r := Reading(f, d.index);
    if r.Some? then r.value else []
  }

  ghost function QueueOf(f: Format, d: Disk): seq<Entry> {
    var r := Reading(f, d.queue);
    if r.Some? then r.value else []
  }

  /** The disk reads as some index and queue, each post once, indexed posts with all of their directory. */
  ghost predicate Good(f: Format, d: Disk) {
    Holds(f, d, IndexOf(f, d), QueueOf(f, d))
  }

  lemma HoldsGood(f: Format, d: Disk, es: seq<Entry>, p: seq<Entry>)
    requires f.Valid() && Holds(f, d, es, p)
    ensures IndexOf(f, d) == es && QueueOf(f, d) == p && Good(f, d)
  {
    ReadsBack(f, es);
    ReadsBack(f, p);
  }

  // ---- steps ----

  ghost predicate StageStep(d: Disk, d': Disk) {
    d' == d.(staging := d'.staging)
  }

  /** One directory, of no indexed post, damaged, gone, or moved in from the staging area. */
  ghost predicate DirStep(f: Format, d: Disk, d': Disk, name: string) {
    && name != "" && (forall i :: 0 <= i < |IndexOf(f, d)| ==> IndexOf(f, d)[i].dir != name)
    && d'.dirs - {name} == d.dirs - {name} && d' == d.(dirs := d'.dirs, staging := d'.staging)
  }

  /** The queue written anew, keeping every post that is not indexed. */
  ghost predicate QueueStep(f: Format, d: Disk, d': Disk, q: seq<Entry>) {
    && OncePerId(q) && Ids(QueueOf(f, d)) - Ids(IndexOf(f, d)) <= Ids(q)
    && d' == d.(queue := Jsonl(f, q))
  }

  /** An entry that may be indexed: a post not indexed yet, its directory complete. */
  ghost predicate Fitting(f: Format, d: Disk, e: Entry) {
    && e.id !in Ids(IndexOf(f, d))
    && (e.dir != "" ==> e.dir == f.name(e) && e.dir in d.dirs && d.dirs[e.dir].Doc?)
  }

  /** The beginning of an append to a whole file. */
  ghost predicate TornStep(f: Format, d: Disk, d': Disk, e: Entry, n: nat) {
    && Whole(d.index) && Fitting(f, d, e) && n <= |f.enc(e)|
    && d' == d.(index := d.index + f.enc(e)[..n])
  }

  /** The rest of it. */
  ghost predicate LineStep(f: Format, d: Disk, d': Disk, w: string, e: Entry, n: nat) {
    && Whole(w) && Fitting(f, d, e) && n <= |f.enc(e)| && d.index == w + f.enc(e)[..n]
    && d' == d.(index := w + f.enc(e) + [NEWLINE])
  }

  ghost predicate FileStep(f: Format, d: Disk, d': Disk) {
    || StageStep(d, d')
    || (exists name :: DirStep(f, d, d', name))
    || (exists q :: QueueStep(f, d, d', q))
    || (exists e, n :: TornStep(f, d, d', e, n))
    || (exists w, e, n :: LineStep(f, d, d', w, e, n))
  }

  /** The index only grows, its directories stay as they are, and no post is lost. */
  ghost predicate Keeps(f: Format, d: Disk, d': Disk) {
    var es, es' := IndexOf(f, d), IndexOf(f, d');
    && es <= es' && Ids(es) + Ids(QueueOf(f, d)) <= Ids(es') + Ids(QueueOf(f, d'))
    && forall i :: 0 <= i < |es| && es[i].dir != "" && es[i].dir in d.dirs ==>
      es[i].dir in d'.dirs && d'.dirs[es[i].dir] == d.dirs[es[i].dir]
  }

  // ---- what reads the same ----

  /** The staging area holds nothing a reader looks at. */
  lemma Elsewhere(f: Format, d: Disk, d': Disk, es: seq<Entry>, p: seq<Entry>)
    requires d' == d.(staging := d'.staging)
    ensures Holds(f, d', es, p) <==> Holds(f, d, es, p)
  {
  }

  /** Nor does it look at a directory that is no indexed post's. */
  lemma OwnDir(f: Format, d: Disk, d': Disk, es: seq<Entry>, p: seq<Entry>, name: string)
    requires Holds(f, d, es, p) && forall i :: 0 <= i < |es| ==> es[i].dir != name
    requires d'.dirs - {name} == d.dirs - {name} && d' == d.(dirs := d'.dirs, staging := d'.staging)
    ensures Holds(f, d', es, p)
    ensures forall i :: 0 <= i < |es| && es[i].dir in d.dirs ==> es[i].dir in d'.dirs && d'.dirs[es[i].dir] == d.dirs[es[i].dir]
  {
    hide Lines, OncePerId;
    forall i | 0 <= i < |es| && es[i].dir in d.dirs
      ensures es[i].dir in d'.dirs && d'.dirs[es[i].dir] == d.dirs[es[i].dir]
    {
      assert es[i].dir in d.dirs - {name};
      assert d'.dirs[es[i].dir] == (d'.dirs - {name})[es[i].dir];
    }
  }

  /** The directory of a post not indexed is no indexed post's. */
  lemma NotOwned(f: Format, d: Disk, es: seq<Entry>, p: seq<Entry>, entry: Entry)
    requires f.Valid() && Holds(f, d, es, p) && entry.id !in Ids(es)
    ensures f.name(entry) != "" && forall i :: 0 <= i < |es| ==> es[i].dir != f.name(entry)
  {
    hide Lines, OncePerId;
    forall i | 0 <= i < |es|
      ensures es[i].dir != f.name(entry)
    {
      assert es[i].id in Ids(es);
    }
  }

  lemma TornHolds(f: Format, d: Disk, es: seq<Entry>, p: seq<Entry>, line: string, n: nat)
    requires Whole(d.index) && Unbroken(line) && n <= |line|
    ensures Holds(f, d.(index := d.index + line[..n]), es, p) <==> Holds(f, d, es, p)
  {
    hide Lines, Whole, Unbroken;
    TornDropped(d.index, line, n);
  }

  lemma AppendHolds(f: Format, d: Disk, es: seq<Entry>, p: seq<Entry>, e: Entry)
    requires f.Valid() && Whole(d.index) && Holds(f, d, es, p) && e.id !in Ids(es)
    requires e.dir != "" ==> e.dir == f.name(e) && e.dir in d.dirs && d.dirs[e.dir].Doc?
    ensures Holds(f, d.(index := d.index + f.enc(e) + [NEWLINE]), es + [e], p)
    ensures Whole(d.index + f.enc(e) + [NEWLINE])
  {
    hide Lines, Whole, Unbroken;
    AppendReads(d.index, f.enc(e));
    TailFacts(d.index);
    assert Tail(d.index) + f.enc(e) == f.enc(e);
    TextsSnoc(f, es, e);
    hide Tail, Texts, Complete;
    OnceSnoc(es, e);
    CompleteSnoc(f, d.dirs, es, e);
  }

  lemma TextsSnoc(f: Format, es: seq<Entry>, e: Entry)
    ensures Texts(f, es + [e]) == Texts(f, es) + [f.enc(e)]
  {
  }

  lemma OnceSnoc(es: seq<Entry>, e: Entry)
    requires OncePerId(es) && e.id !in Ids(es)
    ensures OncePerId(es + [e])
  {
    forall i | 0 <= i < |es|
      ensures es[i].id != e.id
    {
      assert es[i].id in Ids(es);
    }
  }

  lemma CompleteSnoc(f: Format, dirs: map<string, Content>, es: seq<Entry>, e: Entry)
    requires Complete(f, dirs, es) && (e.dir != "" ==> e.dir == f.name(e) && e.dir in dirs && dirs[e.dir].Doc?)
    ensures Complete(f, dirs, es + [e])
  {
  }

  lemma QueueHolds(f: Format, d: Disk, es: seq<Entry>, p: seq<Entry>, q: seq<Entry>)
    requires f.Valid() && Holds(f, d, es, p) && OncePerId(q)
    ensures Holds(f, d.(queue := Jsonl(f, q)), es, q)
  {
    hide Lines, Jsonl;
    JsonlReads(f, q);
  }

  // ---- every step keeps the disk good ----

  lemma SameKeeps(f: Format, d: Disk, d': Disk)
    requires f.Valid() && Holds(f, d', IndexOf(f, d), QueueOf(f, d)) && d'.dirs == d.dirs
    ensures Good(f, d') && Keeps(f, d, d')
  {
    hide Lines, Holds;
    HoldsGood(f, d', IndexOf(f, d), QueueOf(f, d));
  }

  lemma StageKeeps(f: Format, d: Disk, d': Disk)
    requires f.Valid() && Good(f, d) && StageStep(d, d')
    ensures Good(f, d') && Keeps(f, d, d')
  {
    hide Holds, Lines;
    Elsewhere(f, d, d', IndexOf(f, d), QueueOf(f, d));
    SameKeeps(f, d, d');
  }

  lemma DirKeeps(f: Format, d: Disk, d': Disk, name: string)
    requires f.Valid() && Good(f, d) && DirStep(f, d, d', name)
    ensures Good(f, d') && Keeps(f, d, d')
  {
    hide Holds, Lines, IndexOf, QueueOf;
    OwnDir(f, d, d', IndexOf(f, d), QueueOf(f, d), name);
    HoldsGood(f, d', IndexOf(f, d), QueueOf(f, d));
  }

  lemma QueueKeeps(f: Format, d: Disk, d': Disk, q: seq<Entry>)
    requires f.Valid() && Good(f, d) && QueueStep(f, d, d', q)
    ensures Good(f, d') && Keeps(f, d, d')
  {
    hide Holds, Lines, IndexOf, QueueOf, Jsonl, Ids;
    QueueHolds(f, d, IndexOf(f, d), QueueOf(f, d), q);
    HoldsGood(f, d', IndexOf(f, d), q);
  }

  lemma TornKeeps(f: Format, d: Disk, d': Disk, e: Entry, n: nat)
    requires f.Valid() && Good(f, d) && TornStep(f, d, d', e, n)
    ensures Good(f, d') && Keeps(f, d, d')
  {
    assert Unbroken(f.enc(e));
    hide Holds, Lines, IndexOf, QueueOf, Whole;
    TornHolds(f, d, IndexOf(f, d), QueueOf(f, d), f.enc(e), n);
    SameKeeps(f, d, d');
  }

  lemma LineKeeps(f: Format, d: Disk, d': Disk, w: string, e: Entry, n: nat)
    requires f.Valid() && Good(f, d) && LineStep(f, d, d', w, e, n)
    ensures Good(f, d') && Keeps(f, d, d')
  {
    assert Unbroken(f.enc(e));
    hide Holds, Lines, IndexOf, QueueOf, Whole, Ids;
    var es, p := IndexOf(f, d), QueueOf(f, d);
    var d0 := d.(index := w);
    TornHolds(f, d0, es, p, f.enc(e), n);
    AppendHolds(f, d0, es, p, e);
    HoldsGood(f, d', es + [e], p);
    IdsSnoc(es, e);
  }

  /** Whatever step comes next, the disk stays good and loses nothing. */
  lemma StepKeeps(f: Format, d: Disk, d': Disk)
    requires f.Valid() && Good(f, d) && FileStep(f, d, d')
    ensures Good(f, d') && Keeps(f, d, d')
  {
    hide Good, Keeps, DirStep, QueueStep, TornStep, LineStep;
    if name :| DirStep(f, d, d', name) {
      DirKeeps(f, d, d', name);
    } else if q :| QueueStep(f, d, d', q) {
      QueueKeeps(f, d, d', q);
    } else if e, n :| TornStep(f, d, d', e, n) {
      TornKeeps(f, d, d', e, n);
    } else if w, e, n :| LineStep(f, d, d', w, e, n) {
      LineKeeps(f, d, d', w, e, n);
    } else {
      StageKeeps(f, d, d');
    }
  }

  ghost predicate Chain(f: Format, ds: seq<Disk>) {
    forall i :: 0 <= i < |ds| - 1 ==> FileStep(f, ds[i], ds[i + 1])
  }

  lemma ChainStep(f: Format, ds: seq<Disk>, j: nat)
    requires Chain(f, ds) && 0 < j < |ds|
    ensures FileStep(f, ds[j - 1], ds[j])
  {
    hide FileStep;
    assert ds[j] == ds[j - 1 + 1];
  }

  lemma KeepsSame(f: Format, d: Disk)
    ensures Keeps(f, d, d)
  {
  }

  lemma KeepsTrans(f: Format, a: Disk, b: Disk, c: Disk)
    requires Keeps(f, a, b) && Keeps(f, b, c)
    ensures Keeps(f, a, c)
  {
    hide IndexOf, QueueOf, Ids;
  }

  /**
   * At every point of any history, through any crashes and restarts that go on committing
   * only when no line was torn: the index holds each post once, with all of its
   * directory, unchanged ever since, and no post is lost from both index and queue.
   */
  lemma {:induction false} HistoryKeeps(f: Format, ds: seq<Disk>, i: nat, j: nat)
    requires f.Valid() && Chain(f, ds) && i <= j < |ds| && Good(f, ds[i])
    ensures Good(f, ds[j]) && Keeps(f, ds[i], ds[j])
    decreases j - i
  {
    hide Good, Keeps, FileStep, Chain, Format.Valid;
    if i == j {
      KeepsSame(f, ds[i]);
    } else {
      HistoryKeeps(f, ds, i, j - 1);
      ChainStep(f, ds, j);
      StepKeeps(f, ds[j - 1], ds[j]);
      KeepsTrans(f, ds[i], ds[j - 1], ds[j]);
    }
  }

  const EMPTY := Disk("", "", map[], None)

  lemma EmptyGood(f: Format)
    requires f.Valid()
    ensures Good(f, EMPTY)
  {
    JsonlReads(f, []);
    HoldsGood(f, EMPTY, [], []);
  }

  /** Every history that starts from nothing. */
  lemma FromEmpty(f: Format, ds: seq<Disk>, j: nat)
    requires f.Valid() && Chain(f, ds) && j < |ds| && ds[0] == EMPTY
    ensures Good(f, ds[j])
  {
    hide *;
    EmptyGood(f);
    HistoryKeeps(f, ds, 0, j);
  }

  // ---- where a torn line leads ----

  /** No line is the beginning of a line followed by another one: an object's text opens exactly one object that it closes. */
  ghost predicate NeverJoins(f: Format) {
    forall a, b, n: nat :: 0 < n <= |f.enc(a)| ==> f.dec(f.enc(a)[..n] + f.enc(b)) == None
  }

  lemma {:induction false} OneBad(f: Format, a: seq<string>, bad: string, b: seq<string>)
    requires f.dec(bad) == None
    ensures Decoded(f, a + [bad] + b) == None
    decreases |b|
  {
    var s := a + [bad] + b;
    if b == [] {
      assert s[..|s| - 1] == a && s[|s| - 1] == bad;
    } else {
      var n := |b| - 1;
      OneBad(f, a, bad, b[..n]);
      assert s[..|s| - 1] == a + [bad] + b[..n];
    }
  }

  lemma {:induction false} TailIs(w: string, p: string)
    requires Whole(w) && Unbroken(p)
    ensures Tail(w + p) == p
  {
    if p == "" {
      assert w + p == w;
    } else {
      var n := |p| - 1;
      assert (w + p)[..|w + p| - 1] == w + p[..n];
      assert p == p[..n] + [p[n]];
      TailIs(w, p[..n]);
    }
  }

  /**
   * A commit after a torn line, the file not repaired: the index never reads again,
   * whatever is appended later, so every later opening is refused.
   */
  lemma TornRefused(f: Format, w: string, a: Entry, n: nat, b: Entry, rest: string)
    requires f.Valid() && NeverJoins(f) && Whole(w) && 0 < n <= |f.enc(a)|
    ensures Reading(f, w + f.enc(a)[..n]) == Reading(f, w)
    ensures Reading(f, w + f.enc(a)[..n] + f.enc(b) + [NEWLINE] + rest) == None
  {
    assert Unbroken(f.enc(a)) && Unbroken(f.enc(b)) && f.enc(b) != "";
    TornDropped(w, f.enc(a), n);
    var p := f.enc(a)[..n];
    assert Unbroken(p);
    TailIs(w, p);
    hide Lines, Tail, Unbroken, Whole, Decoded;
    AppendReads(w + p, f.enc(b));
    LinesJoin(w + p + f.enc(b) + [NEWLINE], rest, 0);
    assert w + p + f.enc(b) + [NEWLINE] + rest == (w + p + f.enc(b) + [NEWLINE]) + rest;
    OneBad(f, Lines(w + p, 0), p + f.enc(b), Lines(rest, 0));
  }
}
