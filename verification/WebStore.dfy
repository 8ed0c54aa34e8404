/**
 * The article store: its lookups in memory, and the file steps behind each operation.
 * `trail` is every disk the store has passed through, the last of them the present one.
 */
module WebStore {
  import opened Common
  import opened WebDisk

  /** The rows whose post is not in a set. */
  function Unindexed(rows: seq<Entry>, index: set<string>): (r: seq<Entry>)
    ensures forall i :: 0 <= i < |r| ==> r[i] in rows && r[i].pid !in index
  {
    if rows == [] then []
    else
      var n := |rows| - 1;
      Unindexed(rows[..n], index) + if rows[n].pid in index then [] else [rows[n]]
  }

  /** The first row of each post. */
  function Deduped(rows: seq<Entry>): (r: seq<Entry>)
    ensures forall i :: 0 <= i < |r| ==> r[i] in rows
  {
    if rows == [] then []
    else
      var n := |rows| - 1;
      var r := Deduped(rows[..n]);
      r + if exists i :: 0 <= i < |r| && r[i].pid == rows[n].pid then [] else [rows[n]]
  }

  lemma InPids(rows: seq<Entry>, p: string)
    ensures p in Pids(rows) <==> exists i :: 0 <= i < |rows| && rows[i].pid == p
  {
  }

  lemma PidsOfPart(r: seq<Entry>, rows: seq<Entry>)
    requires forall i :: 0 <= i < |r| ==> r[i] in rows
    ensures Pids(r) <= Pids(rows) && (PlainPids(rows) ==> PlainPids(r))
  {
  }

  lemma FirstOfItsPost(r: seq<Entry>, e: Entry)
    requires OncePerPid(r)
    ensures var t := r + if exists i :: 0 <= i < |r| && r[i].pid == e.pid then [] else [e];
      OncePerPid(t) && Pids(t) == Pids(r) + {e.pid}
  {
    PidsSnoc(r, e);
    InPids(r, e.pid);
    assert r + [] == r;
  }

  lemma {:induction false} DedupedPids(rows: seq<Entry>)
    ensures Pids(Deduped(rows)) == Pids(rows) && OncePerPid(Deduped(rows))
  {
    if rows != [] {
      var n := |rows| - 1;
      DedupedPids(rows[..n]);
      assert rows[..n] + [rows[n]] == rows;
      FirstOfItsPost(Deduped(rows[..n]), rows[n]);
      PidsSnoc(rows[..n], rows[n]);
    }
  }

  lemma {:induction false} UnindexedPids(rows: seq<Entry>, index: set<string>)
    ensures Pids(Unindexed(rows, index)) == Pids(rows) - index
  {
    if rows != [] {
      var n := |rows| - 1;
      UnindexedPids(rows[..n], index);
      PidsSnoc(rows[..n], rows[n]);
      var r := Unindexed(rows[..n], index);
      PidsSnoc(r, rows[n]);
      assert r + [] == r;
      assert rows[..n] + [rows[n]] == rows;
    }
  }

  lemma {:induction false} UnindexedOnce(rows: seq<Entry>, index: set<string>)
    requires OncePerPid(rows)
    ensures OncePerPid(Unindexed(rows, index))
  {
    if rows != [] {
      var n := |rows| - 1;
      UnindexedOnce(rows[..n], index);
      forall i | 0 <= i < |Unindexed(rows[..n], index)|
        ensures Unindexed(rows[..n], index)[i].pid != rows[n].pid
      {
        var k :| 0 <= k < n && rows[k] == Unindexed(rows[..n], index)[i];
      }
    }
  }

  /** The lookups in memory say what the disk says. */
  ghost predicate Agrees(d: Disk, index: map<string, Entry>, rows: seq<Entry>, pids: set<string>) {
    && index.Keys == Pids(d.index)
    && (forall i :: 0 <= i < |d.index| ==> index[d.index[i].pid] == d.index[i])
    && PlainPids(rows)
    && pids == Pids(rows) - index.Keys == Pids(d.pending) - Pids(d.index)
  }

  lemma PidsAre(rows: seq<Entry>)
    ensures Pids(rows) == set r | r in rows :: r.pid
  {
  }

  lemma Compacted(d: Disk, index: map<string, Entry>, rows: seq<Entry>, pids: set<string>)
    requires CrashOk(d) && Agrees(d, index, rows, pids)
    ensures var r := Unindexed(rows, index.Keys); var d' := d.(pending := r);
      FileStep(d, d') && Agrees(d', index, r, Pids(r)) && Known(d') == Known(d)
  {
    hide Unindexed;
    var r := Unindexed(rows, index.Keys);
    UnindexedPids(rows, index.Keys);
    PidsOfPart(r, rows);
    assert QueueRewrite(d, d.(pending := r));
  }

  method ReadIndex(rows: seq<Entry>) returns (index: map<string, Entry>)
    requires OncePerPid(rows)
    ensures index.Keys == Pids(rows)
    ensures forall i :: 0 <= i < |rows| ==> index[rows[i].pid] == rows[i]
  {
    index := map[];
    var i := 0;
    while i < |rows|
      invariant 0 <= i <= |rows| && index.Keys == Pids(rows[..i])
      invariant forall j :: 0 <= j < i ==> rows[j].pid in index && index[rows[j].pid] == rows[j]
    {
      PidsSnoc(rows[..i], rows[i]);
      assert rows[..i + 1] == rows[..i] + [rows[i]];
      index := index[rows[i].pid := rows[i]];
      i := i + 1;
    }
    assert rows[..i] == rows;
  }

  method Dedupe(rows: seq<Entry>) returns (r: seq<Entry>)
    ensures r == Deduped(rows)
  {
    r := [];
    var pids := {};
    var i := 0;
    while i < |rows|
      invariant 0 <= i <= |rows| && r == Deduped(rows[..i])
      invariant forall p :: p in pids <==> exists j :: 0 <= j < |r| && r[j].pid == p
    {
      assert rows[..i + 1][..i] == rows[..i];
      if rows[i].pid !in pids {
        ghost var before := r;
        pids := pids + {rows[i].pid};
        r := r + [rows[i]];
        assert r[|before|] == rows[i] && forall j :: 0 <= j < |before| ==> r[j] == before[j];
      }
      i := i + 1;
    }
    assert rows[..i] == rows;
  }

  /** Orphans are gone, but for directories still to be looked at. */
  ghost predicate Sweeping(d0: Disk, d: Disk, todo: set<string>) {
    && d == d0.(dirs := d.dirs) && todo <= d.dirs.Keys <= d0.dirs.Keys
    && (forall name :: name in d.dirs ==> d.dirs[name] == d0.dirs[name])
    && forall name :: name in d0.dirs ==> (name in d.dirs <==> name in todo || Indexed(d0, name))
  }

  lemma AgreesOn(d: Disk, d': Disk, index: map<string, Entry>, rows: seq<Entry>, pids: set<string>)
    requires d'.index == d.index && d'.pending == d.pending
    ensures Agrees(d', index, rows, pids) <==> Agrees(d, index, rows, pids)
    ensures Agrees(d, index, rows, pids) ==> index.Keys == Pids(d'.index)
  {
  }

  lemma IndexedOn(d: Disk, d': Disk)
    requires d'.index == d.index
    ensures forall name :: Indexed(d', name) <==> Indexed(d, name)
  {
  }

  lemma IndexOnce(d: Disk)
    requires CrashOk(d)
    ensures OncePerPid(d.index)
  {
  }

  lemma IndexedIff(d: Disk, name: string)
    ensures Indexed(d, name) <==> PidOfDir(name).Some? && PidOfDir(name).value in Pids(d.index)
  {
  }

  lemma Reopened(d: Disk, index: map<string, Entry>, queue: seq<Entry>)
    requires CrashOk(d) && index.Keys == Pids(d.index) && queue == Unindexed(d.pending, Pids(d.index))
    requires forall i :: 0 <= i < |d.index| ==> index[d.index[i].pid] == d.index[i]
    ensures OncePerPid(Deduped(queue)) && Agrees(d, index, Deduped(queue), Pids(Deduped(queue)))
  {
    hide Unindexed, Deduped;
    UnindexedPids(d.pending, Pids(d.index));
    DedupedPids(queue);
    PidsOfPart(queue, d.pending);
    PidsOfPart(Deduped(queue), queue);
  }

  class Store {
    var disk: Disk
    var index: map<string, Entry>
    var pendingRows: seq<Entry>
    var pendingPids: set<string>
    ghost var trail: seq<Disk>

    ghost predicate Valid()
      reads this
    {
      Tracked(trail, disk) && Agrees(disk, index, pendingRows, pendingPids)
    }

    /**
     * Opening the store on whatever disk was left, by a crash or not: the queue without
     * what is committed and without repeats, the staging area empty, and of the
     * directories exactly those of indexed posts, untouched.
     */
    constructor (d: Disk, ghost past: seq<Disk>)
      requires Tracked(past, d)
      ensures Valid() && past <= trail && Tidy(disk)
      ensures disk.index == d.index && disk.pending == d.pending && disk.staging == map[]
      ensures pendingRows == Deduped(Unindexed(d.pending, Pids(d.index))) && OncePerPid(pendingRows)
      ensures disk.dirs == map name | name in d.dirs && Indexed(d, name) :: d.dirs[name]
      ensures Single(d) ==> Single(disk)
    {
      disk := d;
      trail := past;
      index := map[];
      pendingRows := [];
      pendingPids := {};
      new;
      Recover();
      if Single(d) {
        SameSingle(d, disk);
      }
    }

    method Recover()
      requires Tracked(trail, disk)
      modifies this
      ensures Valid() && old(trail) <= trail && Tidy(disk)
      ensures disk == old(disk).(staging := map[],
        dirs := map name | name in old(disk.dirs) && Indexed(old(disk), name) :: old(disk.dirs)[name])
      ensures pendingRows == Deduped(Unindexed(disk.pending, Pids(disk.index))) && OncePerPid(pendingRows)
    {
      hide Tracked, Agrees, Indexed, Tidy, Deduped, Unindexed, Pids, OncePerPid;
      ghost var d0 := disk;
      Load();
      AgreesOn(disk, disk, index, pendingRows, pendingPids);
      PutStage(map[]);
      IndexedOn(d0, disk);
      CollectOrphans();
      AgreesOn(d0, disk, index, pendingRows, pendingPids);
    }

    /** Reads the index and the queue back into memory. */
    method Load()
      requires Tracked(trail, disk)
      modifies this`index, this`pendingRows, this`pendingPids
      ensures Valid() && OncePerPid(pendingRows)
      ensures pendingRows == Deduped(Unindexed(disk.pending, Pids(disk.index)))
    {
      hide Tracked, Agrees, Deduped, Unindexed, Pids, OncePerPid, CrashOk, Chain;
      TrackedOk(trail, disk);
      IndexOnce(disk);
      index := ReadIndex(disk.index);
      var queue := Unindexed(disk.pending, index.Keys);
      pendingRows := Dedupe(queue);
      PidsAre(pendingRows);
      pendingPids := set r | r in pendingRows :: r.pid;
      Reopened(disk, index, queue);
    }

    /** Removes every directory whose post is not indexed. */
    method CollectOrphans()
      requires Tracked(trail, disk) && index.Keys == Pids(disk.index)
      modifies this`disk, this`trail
      ensures Tracked(trail, disk) && old(trail) <= trail && Tidy(disk)
      ensures disk == old(disk).(dirs := map name | name in old(disk.dirs) && Indexed(old(disk), name) :: old(disk.dirs)[name])
    {
      hide Tracked;
      ghost var d0 := disk;
      var todo := disk.dirs.Keys;
      while todo != {}
        invariant Tracked(trail, disk) && old(trail) <= trail && index.Keys == Pids(d0.index)
        invariant Sweeping(d0, disk, todo)
        decreases |todo|
      {
        var name :| name in todo;
        todo := todo - {name};
        var pid := PidOfDir(name);
        IndexedIff(disk, name);
        if !(pid.Some? && pid.value in index) {
          RemoveDir(name);
        }
      }
    }

    /** One file step. */
    method Put(d: Disk)
      requires Tracked(trail, disk) && FileStep(disk, d)
      modifies this`disk, this`trail
      ensures disk == d && trail == old(trail) + [d] && Tracked(trail, disk)
    {
      hide CrashOk, FileStep, Keeps;
      StepKeeps(disk, d);
      disk := d;
      ghost var before := trail;
      trail := trail + [d];
      forall i | 0 <= i < |trail| - 1
        ensures FileStep(trail[i], trail[i + 1])
      {
        if i < |before| - 1 {
          assert FileStep(before[i], before[i + 1]);
        }
      }
    }

    /** The queue: every known post not yet committed. */
    method Pending() returns (rows: seq<Entry>)
      requires Valid()
      ensures rows == Unindexed(pendingRows, index.Keys)
      ensures Pids(rows) == Known(disk) - Pids(disk.index)
    {
      rows := [];
      var i := 0;
      while i < |pendingRows|
        invariant 0 <= i <= |pendingRows| && rows == Unindexed(pendingRows[..i], index.Keys)
      {
        assert pendingRows[..i + 1][..i] == pendingRows[..i];
        if pendingRows[i].pid !in index {
          rows := rows + [pendingRows[i]];
        }
        i := i + 1;
      }
      assert pendingRows[..i] == pendingRows;
      UnindexedPids(pendingRows, index.Keys);
    }

    /** Drops the committed rows from the queue file. */
    method CompactPending()
      requires Valid()
      modifies this
      ensures Valid() && old(trail) <= trail
      ensures disk == old(disk).(pending := Unindexed(old(pendingRows), old(index.Keys)))
      ensures pendingRows == disk.pending && index == old(index) && Known(disk) == old(Known(disk))
    {
      hide CrashOk, FileStep, Chain, Unindexed, Known, Pids;
      var rows := Pending();
      TrackedOk(trail, disk);
      Compacted(disk, index, pendingRows, pendingPids);
      Put(disk.(pending := rows));
      pendingRows := rows;
      PidsAre(rows);
      pendingPids := set r | r in rows :: r.pid;
    }

    /** Queues the rows of posts not known before, a line each. */
    method AddPending(rows: seq<Entry>) returns (added: nat)
      requires Valid() && PlainPids(rows)
      modifies this
      ensures Valid() && old(trail) <= trail
      ensures var newRows := Unindexed(rows, old(Known(disk)));
        && added == |newRows| && disk == old(disk).(pending := old(disk.pending) + newRows)
        && pendingRows == old(pendingRows) + newRows && index == old(index)
      ensures Known(disk) == old(Known(disk)) + Pids(rows)
    {
      hide CrashOk, FileStep, Chain, Known;
      ghost var known := Known(disk);
      var newRows := FreshOf(rows);
      UnindexedPids(rows, known);
      PidsOfPart(newRows, rows);
      KnownHas(disk);
      ghost var d0, t0 := disk, trail;
      var i := 0;
      while i < |newRows|
        invariant 0 <= i <= |newRows| && disk == d0.(pending := d0.pending + newRows[..i])
        invariant Tracked(trail, disk) && t0 <= trail
        invariant index == old(index) && pendingRows == old(pendingRows) && pendingPids == old(pendingPids)
      {
        QueueLineStep(disk, newRows[i]);
        assert d0.pending + newRows[..i] + [newRows[i]] == d0.pending + newRows[..i + 1];
        Put(disk.(pending := disk.pending + [newRows[i]]));
        i := i + 1;
      }
      assert newRows[..i] == newRows;
      Queued(d0, index, pendingRows, pendingPids, newRows);
      pendingPids := pendingPids + set r | r in newRows :: r.pid;
      pendingRows := pendingRows + newRows;
      PidsAre(newRows);
      KnownAfter(d0, newRows, rows);
      added := |newRows|;
    }

    /** Removes a directory no index line needs; a crash meanwhile leaves some of it. */
    method RemoveDir(name: string)
      requires Tracked(trail, disk) && name in disk.dirs && !Indexed(disk, name)
      modifies this`disk, this`trail
      ensures Tracked(trail, disk) && old(trail) <= trail
      ensures disk == old(disk).(dirs := old(disk.dirs) - {name})
    {
      hide CrashOk, Chain;
      var left: Content := *;
      RemovingStep(disk, disk.(dirs := disk.dirs[name := left]), name, left);
      Put(disk.(dirs := disk.dirs[name := left]));
      RemovingStep(disk, disk.(dirs := disk.dirs - {name}), name, left);
      Put(disk.(dirs := disk.dirs - {name}));
    }

    /** Changes nothing outside the staging area. */
    method PutStage(staging: map<string, Content>)
      requires Tracked(trail, disk)
      modifies this`disk, this`trail
      ensures Tracked(trail, disk) && old(trail) <= trail && disk == old(disk).(staging := staging)
    {
      hide CrashOk, Chain;
      StagingStep(disk, staging);
      Put(disk.(staging := staging));
    }

    method SetStaged(pid: string, v: Content, ghost d0: Disk)
      requires Tracked(trail, disk) && StagedOnly(d0, disk, pid)
      modifies this`disk, this`trail
      ensures Tracked(trail, disk) && old(trail) <= trail
      ensures disk == d0.(staging := d0.staging[pid := v]) && StagedOnly(d0, disk, pid)
    {
      hide Tracked;
      SameElsewhere(d0.staging, disk.staging, pid, v);
      PutStage(disk.staging[pid := v]);
    }

    /** Writes the whole article into the staging area, file by file. */
    method Stage(pid: string, markdown: string, assets: map<string, string>)
      requires Tracked(trail, disk)
      modifies this`disk, this`trail
      ensures Tracked(trail, disk) && old(trail) <= trail
      ensures disk == old(disk).(staging := old(disk.staging)[pid := Doc(markdown, assets)])
    {
      hide Tracked;
      ghost var d0 := disk;
      if pid in disk.staging {
        PutStage(disk.staging - {pid});
      }
      assert StagedOnly(d0, disk, pid);
      hide StagedOnly;
      SetStaged(pid, Draft(None, map[]), d0);
      StageAssets(pid, markdown, assets, d0);
      SetStaged(pid, Doc(markdown, assets), d0);
    }

    method StageAssets(pid: string, markdown: string, assets: map<string, string>, ghost d0: Disk)
      requires Tracked(trail, disk) && StagedOnly(d0, disk, pid)
      modifies this`disk, this`trail
      ensures Tracked(trail, disk) && old(trail) <= trail && StagedOnly(d0, disk, pid)
      ensures disk == d0.(staging := d0.staging[pid := Draft(Some(markdown), assets)])
    {
      hide Tracked, StagedOnly;
      SetStaged(pid, Draft(Some(markdown), map[]), d0);
      var todo, written := assets.Keys, map[];
      while todo != {}
        invariant todo <= assets.Keys && written.Keys == assets.Keys - todo
        invariant forall k :: k in written ==> written[k] == assets[k]
        invariant Tracked(trail, disk) && old(trail) <= trail && StagedOnly(d0, disk, pid)
        invariant disk == d0.(staging := d0.staging[pid := Draft(Some(markdown), written)])
        decreases |todo|
      {
        var name :| name in todo;
        todo := todo - {name};
        written := written[name := assets[name]];
        SetStaged(pid, Draft(Some(markdown), written), d0);
      }
      assert written == assets;
    }

    /**
     * Commits a post: its directory complete under its final name first, then the
     * index line. On a tidy disk no post ever gets a second directory.
     */
    method Commit(entry: Entry, markdown: string, assets: map<string, string>)
      requires Valid() && Plain(entry.pid) && entry.pid !in index
      modifies this
      ensures Valid() && old(trail) <= trail
      ensures var e := entry.(dir := Some(EntryDir(entry)));
        && disk == Disk(old(disk.index) + [e], old(disk.pending),
                        old(disk.dirs)[EntryDir(entry) := Doc(markdown, assets)], old(disk.staging) - {entry.pid})
        && index == old(index)[entry.pid := e] && pendingRows == old(pendingRows)
      ensures Known(disk) == old(Known(disk)) + {entry.pid}
      ensures old(Tidy(disk)) ==> Tidy(disk)
      ensures old(Single(disk) && OneName(disk, entry)) ==> Single(disk)
      ensures old(Single(disk) && Tidy(disk)) ==> Single(disk)
    {
      hide CrashOk, FileStep, Chain, EntryDir, Single, OneName, Tidy;
      ghost var d0 := disk;
      var finalDir := EntryDir(entry);
      NotIndexed(disk, entry);
      if finalDir in disk.dirs {
        RemoveDir(finalDir);
      }
      Stage(entry.pid, markdown, assets);
      RenameStep(disk, entry);
      ghost var d1 := disk;
      Put(disk.(dirs := disk.dirs[finalDir := disk.staging[entry.pid]], staging := disk.staging - {entry.pid}));
      var e := entry.(dir := Some(finalDir));
      assert disk.dirs == d0.dirs[finalDir := Doc(markdown, assets)];
      assert disk.staging == d0.staging - {entry.pid};
      IndexLineStep(disk, entry, e);
      Put(disk.(index := disk.index + [e]));
      Committed(d0, disk, index, pendingRows, pendingPids, entry, e);
      CommittedSingle(d0, disk, entry, e);
      index := index[entry.pid := e];
      pendingPids := pendingPids - {entry.pid};
    }

    method FreshOf(rows: seq<Entry>) returns (newRows: seq<Entry>)
      requires Valid()
      ensures newRows == Unindexed(rows, Known(disk))
    {
      newRows := [];
      var i := 0;
      while i < |rows|
        invariant 0 <= i <= |rows| && newRows == Unindexed(rows[..i], Known(disk))
      {
        assert rows[..i + 1][..i] == rows[..i];
        if rows[i].pid !in index && rows[i].pid !in pendingPids {
          newRows := newRows + [rows[i]];
        }
        i := i + 1;
      }
      assert rows[..i] == rows;
    }
  }

  /** A good disk at the end of an unbroken chain of steps. */
  ghost predicate Tracked(trail: seq<Disk>, d: Disk) {
    trail != [] && trail[|trail| - 1] == d && Chain(trail) && CrashOk(d)
  }

  lemma TrackedOk(trail: seq<Disk>, d: Disk)
    requires Tracked(trail, d)
    ensures CrashOk(d)
  {
  }

  lemma RemovingStep(d: Disk, d': Disk, name: string, left: Content)
    requires Removing(d, d', name, left)
    ensures FileStep(d, d')
    ensures forall n :: Indexed(d, n) <==> Indexed(d', n)
  {
  }

  lemma StagingStep(d: Disk, staging: map<string, Content>)
    ensures FileStep(d, d.(staging := staging))
  {
    assert StageStep(d, d.(staging := staging));
  }

  /** d differs from d0 at most in what is staged for one post. */
  ghost predicate StagedOnly(d0: Disk, d: Disk, pid: string) {
    d == d0.(staging := d.staging) && d.staging - {pid} == d0.staging - {pid}
  }

  lemma SameElsewhere(a: map<string, Content>, b: map<string, Content>, k: string, v: Content)
    requires a - {k} == b - {k}
    ensures a[k := v] == b[k := v] && b[k := v] - {k} == a - {k}
  {
    assert forall x :: x != k ==> (x in a <==> x in a - {k}) && (x in b <==> x in b - {k});
    assert forall x :: x != k && x in a ==> a[x] == (a - {k})[x];
    assert forall x :: x != k && x in b ==> b[x] == (b - {k})[x];
  }

  lemma NotIndexed(d: Disk, e: Entry)
    requires Plain(e.pid) && e.pid !in Pids(d.index)
    ensures !Indexed(d, EntryDir(e))
  {
    DirRoundTrip(e);
    forall i | 0 <= i < |d.index|
      ensures d.index[i].pid != e.pid
    {
      PidIn(d.index, i);
    }
  }

  lemma RenameStep(d: Disk, e: Entry)
    requires Plain(e.pid) && e.pid !in Pids(d.index) && EntryDir(e) !in d.dirs
    requires e.pid in d.staging && d.staging[e.pid].Doc?
    ensures FileStep(d, d.(dirs := d.dirs[EntryDir(e) := d.staging[e.pid]], staging := d.staging - {e.pid}))
  {
    NotIndexed(d, e);
    assert Rename(d, d.(dirs := d.dirs[EntryDir(e) := d.staging[e.pid]], staging := d.staging - {e.pid}), e);
  }

  lemma IndexLineStep(d: Disk, entry: Entry, e: Entry)
    requires e == entry.(dir := Some(EntryDir(entry))) && Plain(e.pid) && e.pid !in Pids(d.index)
    requires EntryDir(entry) in d.dirs && d.dirs[EntryDir(entry)].Doc?
    ensures FileStep(d, d.(index := d.index + [e]))
  {
    assert EntryDir(e) == EntryDir(entry);
    assert IndexLine(d, d.(index := d.index + [e]), e);
  }

  lemma Committed(d0: Disk, d: Disk, index: map<string, Entry>, rows: seq<Entry>, pids: set<string>, entry: Entry, e: Entry)
    requires CrashOk(d) && e == entry.(dir := Some(EntryDir(entry))) && Plain(e.pid) && e.pid !in index
    requires Agrees(d0, index, rows, pids)
    requires d.pending == d0.pending && d.index == d0.index + [e] && d.dirs.Keys == d0.dirs.Keys + {EntryDir(entry)}
    ensures Agrees(d, index[e.pid := e], rows, pids - {e.pid})
    ensures Known(d) == Known(d0) + {e.pid}
    ensures Tidy(d0) ==> Tidy(d)
  {
    PidsSnoc(d0.index, e);
    DirRoundTrip(entry);
    assert d.index[|d0.index|] == e;
    forall name | Indexed(d0, name)
      ensures Indexed(d, name)
    {
      var i :| 0 <= i < |d0.index| && PidOfDir(name) == Some(d0.index[i].pid);
      assert d.index[i] == d0.index[i];
    }
    forall i | 0 <= i < |d0.index|
      ensures d0.index[i].pid != e.pid
    {
      PidIn(d0.index, i);
    }
  }

  lemma CommittedSingle(d0: Disk, d: Disk, entry: Entry, e: Entry)
    requires e == entry.(dir := Some(EntryDir(entry))) && Plain(e.pid) && e.pid !in Pids(d0.index)
    requires d.index == d0.index + [e] && d.dirs.Keys == d0.dirs.Keys + {EntryDir(entry)}
    ensures Single(d0) && OneName(d0, entry) ==> Single(d)
    ensures Single(d0) && Tidy(d0) ==> Single(d)
  {
    DirRoundTrip(entry);
    assert EntryDir(e) == EntryDir(entry);
    hide EntryDir, PidOfDir;
    if Tidy(d0) {
      TidyOneName(d0, entry);
    }
    if Single(d0) && OneName(d0, entry) {
      forall i | 0 <= i < |d.index|
        ensures OneName(d, d.index[i])
      {
        if i < |d0.index| {
          assert OneName(d0, d0.index[i]);
          PidIn(d0.index, i);
        }
      }
    }
  }

  lemma QueueLineStep(d: Disk, e: Entry)
    requires Plain(e.pid)
    ensures FileStep(d, d.(pending := d.pending + [e]))
  {
    assert QueueLine(d, d.(pending := d.pending + [e]), e);
  }

  lemma {:induction false} PidsJoin(a: seq<Entry>, b: seq<Entry>)
    ensures Pids(a + b) == Pids(a) + Pids(b)
  {
    if b != [] {
      var n := |b| - 1;
      PidsJoin(a, b[..n]);
      PidsSnoc(a + b[..n], b[n]);
      PidsSnoc(b[..n], b[n]);
      assert a + b[..n] + [b[n]] == a + b && b[..n] + [b[n]] == b;
    } else {
      assert a + b == a;
    }
  }

  lemma Queued(d: Disk, index: map<string, Entry>, rows: seq<Entry>, pids: set<string>, newRows: seq<Entry>)
    requires Agrees(d, index, rows, pids) && PlainPids(newRows) && Pids(newRows) !! Pids(d.index)
    ensures Agrees(d.(pending := d.pending + newRows), index, rows + newRows, pids + Pids(newRows))
  {
    PidsJoin(rows, newRows);
    PidsJoin(d.pending, newRows);
    hide Pids;
    var more := Pids(newRows);
    assert Pids(rows) + more - index.Keys == pids + more;
    assert Pids(d.pending) + more - Pids(d.index) == pids + more;
  }

  lemma KnownHas(d: Disk)
    ensures Pids(d.index) <= Known(d)
  {
  }

  lemma KnownAfter(d: Disk, newRows: seq<Entry>, rows: seq<Entry>)
    requires Pids(newRows) == Pids(rows) - Known(d)
    ensures Known(d.(pending := d.pending + newRows)) == Known(d) + Pids(rows)
  {
    PidsJoin(d.pending, newRows);
    hide Pids;
  }

  // ---- the same post twice in one batch ----

  /**
   * Rows are checked against what was known before the batch, not against each other:
   * the queue stays free of repeats exactly when the batch's own new rows are.
   */
  lemma {:induction false} BatchRepeats(queue: seq<Entry>, rows: seq<Entry>, known: set<string>)
    requires OncePerPid(queue) && Pids(queue) <= known
    ensures OncePerPid(queue + Unindexed(rows, known)) <==> OncePerPid(Unindexed(rows, known))
  {
    var r := Unindexed(rows, known);
    var all := queue + r;
    if OncePerPid(all) {
      forall i, j | 0 <= i < j < |r|
        ensures r[i].pid != r[j].pid
      {
        assert all[|queue| + i] == r[i] && all[|queue| + j] == r[j];
      }
    }
    if OncePerPid(r) {
      forall i, j | 0 <= i < j < |all|
        ensures all[i].pid != all[j].pid
      {
        if i < |queue| && |queue| <= j {
          PidIn(queue, i);
        }
      }
    }
  }

  /** A post that moved from one page to the next while they were read is queued twice. */
  lemma MovedPostQueuedTwice(e: Entry)
    ensures Unindexed([e, e], {}) == [e, e] && !OncePerPid(Unindexed([e, e], {}))
  {
    assert [e, e][..1] == [e] && [e][..0] == [];
    assert Unindexed([e], {}) == [e];
    var r := Unindexed([e, e], {});
    assert r[0].pid == r[1].pid;
  }
}
