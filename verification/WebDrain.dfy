/** The two-stage download over the article store. */
module WebDrain {
  import opened Common
  import opened WebDisk
  import opened WebStore
  import opened WebFlow

  /** Rows read back from an old queue may lack a title. */
  function Normal(e: Entry): Entry {
    e.(title := Some(if e.title.Some? then e.title.value else ""))
  }

  function Normals(rows: seq<Entry>): seq<Entry> {
    seq(|rows|, i requires 0 <= i < |rows| => Normal(rows[i]))
  }

  /** What a run takes from the queue; no limit is zero. */
  function Batch(rows: seq<Entry>, limit: nat): seq<Entry> {
    Normals(if limit > 0 && limit < |rows| then rows[..limit] else rows)
  }

  lemma BatchFacts(rows: seq<Entry>, limit: nat)
    ensures var q := Batch(rows, limit); Pids(q) <= Pids(rows) && (q == [] <==> rows == [])
    ensures PlainPids(rows) ==> PlainPids(Batch(rows, limit))
    ensures OncePerPid(rows) ==> OncePerPid(Batch(rows, limit))
  {
    var q := Batch(rows, limit);
    assert forall i :: 0 <= i < |q| ==> q[i].pid == rows[i].pid;
    forall p | p in Pids(q)
      ensures p in Pids(rows)
    {
      var i :| 0 <= i < |q| && q[i].pid == p;
      PidIn(rows, i);
    }
  }

  /** The first rows up to the limit, or all, each its own but for a title where it lacks one. */
  lemma BatchIs(rows: seq<Entry>, limit: nat)
    ensures var q := Batch(rows, limit);
      && |q| == (if 0 < limit < |rows| then limit else |rows|)
      && forall i :: 0 <= i < |q| ==>
           && (rows[i].title.Some? ==> q[i] == rows[i])
           && (rows[i].title.None? ==> q[i] == rows[i].(title := Some("")))
  {
  }

  lemma TakenNext(c: Setup, committed: seq<nat>, i: nat)
    requires i < |c.queue|
    ensures Taken(c, committed + [i]) == Taken(c, committed) + {c.queue[i].pid}
  {
  }

  /** Nothing is known of a post handed out but its place. */
  lemma InFlight(c: Setup, es: seq<Event>, i: nat)
    requires c.Ok() && Plays(c, es)
    requires var s := Play(c, es); i in s.net || i in s.img
    ensures var s := Play(c, es); i < |c.queue| && i !in s.holes && i !in s.committed
  {
    Reached(c, es);
  }

  lemma WindowsHold(c: Setup, es: seq<Event>)
    requires c.Ok() && Plays(c, es)
    ensures var s := Play(c, es); s.next <= |c.queue| && s.due <= s.net + s.img && s.net !! Span(s.next, |c.queue|)
    ensures var s := Play(c, es); |s.net| <= c.workers && |s.net| + |s.img| <= c.workers + c.Backlog() - 1
    ensures var s := Play(c, es); s.filled ==> s.next == |c.queue| || |s.net| >= c.workers || |s.img| >= c.Backlog()
  {
    Reached(c, es);
  }

  /** A downloaded post. */
  datatype Post = Post(markdown: string, assets: map<string, string>)

  class Pipeline {
    const c: Setup
    const store: Store
    var next: nat
    var net: set<nat>
    var img: set<nat>
    var seqNo: nat
    var holeCount: nat
    var streak: nat
    ghost var flow: Flow
    ghost var log: seq<Event>
    ghost const known: set<string>
    ghost const rows: seq<Entry>

    /** The state machine has come, along log, to where the fields are; the store has followed. */
    ghost predicate Valid()
      reads this, store
    {
      && c.Ok() && PlainPids(c.queue) && Plays(c, log) && Play(c, log) == flow
      && next == flow.next && net == flow.net && img == flow.img && streak == flow.streak
      && holeCount == |flow.holes|
      && seqNo == |flow.committed| + |flow.holes| + (if flow.stop.Refused? then 1 else 0)
      && store.Valid() && store.index.Keys == Taken(c, flow.committed)
      && Pids(c.queue) <= known == Known(store.disk) && store.pendingRows == rows
    }

    constructor (queue: seq<Entry>, workers: nat, store: Store)
      requires store.Valid() && workers > 0 && PlainPids(queue)
      requires Pids(queue) !! store.index.Keys && Pids(queue) <= Known(store.disk)
      ensures Valid() && log == [] && flow == START
      ensures c == Setup(queue, store.index.Keys, workers) && this.store == store
      ensures known == Known(store.disk) && rows == store.pendingRows
    {
      c, this.store := Setup(queue, store.index.Keys, workers), store;
      next, net, img, seqNo, holeCount, streak := 0, {}, {}, 0, 0, 0;
      flow, log := START, [];
      known, rows := Known(store.disk), store.pendingRows;
    }

    ghost method Step(e: Event)
      requires Plays(c, log) && Play(c, log) == flow && Enabled(c, flow, e)
      modifies this`flow, this`log
      ensures log == old(log) + [e] && flow == After(c, old(flow), e)
      ensures Plays(c, log) && Play(c, log) == flow
    {
      hide *;
      PlayNext(c, log, e);
      flow := After(c, flow, e);
      log := log + [e];
    }

    /** Hands out posts while both windows allow it. */
    method HandOut()
      requires |net| <= c.workers && next <= |c.queue| && net !! Span(next, |c.queue|)
      modifies this`next, this`net
      ensures old(next) <= next && net == old(net) + Span(old(next), next)
      ensures |net| == |old(net)| + next - old(next)
      ensures next == |c.queue| || |net| == c.workers || |img| >= c.Backlog()
      ensures next <= |c.queue| && |net| <= c.workers && (next == old(next) || |img| < c.Backlog())
    {
      hide Span;
      ghost var next0, net0 := next, net;
      SpanNone(next, net);
      while |net| < c.workers && |img| < c.Backlog()
        invariant next0 <= next <= |c.queue| && net == net0 + Span(next0, next)
        invariant |net| <= c.workers
        invariant next == next0 || |img| < c.Backlog()
        decreases |c.queue| - next
      {
        if next == |c.queue| {
          break;
        }
        SpanNext(next0, next, |c.queue|, net0);
        net := net + {next};
        next := next + 1;
      }
      SpanAdds(next0, next, |c.queue|, net0);
    }

    /** The same as a step of the state machine. */
    method HandOutFrom(ghost s: Flow)
      requires s.next == next && s.net == net && s.img == img
      requires |net| <= c.workers && next <= |c.queue| && net !! Span(next, |c.queue|)
      modifies this`next, this`net
      ensures After(c, s, Refill) == s.(next := next, net := net, filled := true)
    {
      hide After, Span;
      HandOut();
      RoomIs(c, s, next - s.next);
      hide Room;
      RefillIs(c, s, next, net);
    }

    method FillUp()
      requires Valid() && Enabled(c, flow, Refill)
      modifies this
      ensures Valid() && log == old(log) + [Refill] && flow == After(c, old(flow), Refill)
      ensures flow.stop == Going && flow.filled && Work(c, flow) < old(Work(c, flow))
    {
      hide Plays, Play, Taken, Known, Pids, PlainPids, Span, Work, Agrees, Tracked, After;
      WindowsHold(c, log);
      Shrinks(c, log, Refill);
      HandOutFrom(flow);
      Step(Refill);
    }

    /** A hole: the post stays in the queue for the next run. */
    method Hole() returns (ok: bool)
      modifies this`seqNo, this`holeCount, this`streak
      ensures seqNo == old(seqNo) + 1 && holeCount == old(holeCount) + 1 && streak == old(streak) + 1
      ensures ok <==> streak < c.StreakLimit()
    {
      seqNo, holeCount, streak := seqNo + 1, holeCount + 1, streak + 1;
      ok := streak < c.StreakLimit();
    }

    /** A page came back, and goes on to the image stage, or did not. */
    method SettleNet(i: nat, got: bool) returns (ok: bool)
      requires Valid() && Enabled(c, flow, Fetched(i, got))
      modifies this
      ensures Valid() && log == old(log) + [Fetched(i, got)] && (ok <==> flow.stop == Going)
      ensures flow == After(c, old(flow), Fetched(i, got))
    {
      hide Plays, Play, Taken, Known, Pids;
      ok := true;
      InFlight(c, log, i);
      LessOne(flow.holes, i);
      net := net - {i};
      if got {
        img := img + {i};
      } else {
        ok := Hole();
      }
      Step(Fetched(i, got));
    }

    /** The images are complete, and the post is committed, unless it was already; or they are not. */
    method SettleImg(i: nat, out: Option<Post>) returns (ok: bool)
      requires Valid() && Enabled(c, flow, Filled(i, out.Some?))
      modifies this, store
      ensures Valid() && log == old(log) + [Filled(i, out.Some?)] && (ok <==> flow.stop == Going)
      ensures flow == After(c, old(flow), Filled(i, out.Some?)) && old(store.trail) <= store.trail
    {
      hide Plays, Play, Taken, Known, Pids, Agrees, Tracked, CrashOk, FileStep, Chain, Tidy, Single, OneName;
      ok := true;
      InFlight(c, log, i);
      LessOne(flow.holes, i);
      img := img - {i};
      if out.Some? {
        seqNo, streak := seqNo + 1, 0;
        ok := c.queue[i].pid !in store.index;
        if ok {
          TakenNext(c, flow.committed, i);
          QueuedKnown(c.queue, i, store.disk);
          store.Commit(c.queue[i], out.value.markdown, out.value.assets);
        }
      } else {
        ok := Hole();
      }
      Step(Filled(i, out.Some?));
    }

    /** Some downloads finish, and are settled in any order. */
    method Round() returns (ok: bool)
      requires Valid() && flow.stop == Going && flow.filled && net + img != {}
      modifies this, store
      ensures Valid() && old(log) <= log && (ok <==> flow.stop == Going)
      ensures ok ==> Enabled(c, flow, Refill)
      ensures Work(c, flow) < old(Work(c, flow)) && old(store.trail) <= store.trail
    {
      hide Plays, Play, Taken, Known, Pids, Agrees, Tracked, After, Work;
      var finished: set<nat> :| finished != {} && finished <= net + img;
      ghost var before := flow;
      Shrinks(c, log, Wait(finished));
      Step(Wait(finished));
      DueIs(c, before, finished);
      ok := true;
      while finished != {} && ok
        invariant Valid() && old(log) <= log && (ok <==> flow.stop == Going)
        invariant old(store.trail) <= store.trail
        invariant finished == flow.due && (flow.stop == Going ==> !flow.filled)
        invariant Work(c, flow) <= Work(c, before) + (if flow.due == {} || !ok then -1 else 1)
        decreases |finished|
      {
        var i :| i in finished;
        finished := finished - {i};
        WindowsHold(c, log);
        if i in net {
          var got: bool := *;
          Shrinks(c, log, Fetched(i, got));
          DueAfter(c, flow, Fetched(i, got));
          ok := SettleNet(i, got);
        } else {
          var out: Option<Post> := *;
          Shrinks(c, log, Filled(i, out.Some?));
          DueAfter(c, flow, Filled(i, out.Some?));
          ok := SettleImg(i, out);
        }
      }
    }

    /** The whole run, up to where it is through or stopped. */
    method Run() returns (ok: bool)
      requires Valid() && log == [] && flow == START
      modifies this, store
      ensures Valid() && (ok <==> flow.stop == Going) && (ok ==> Through(flow))
      ensures old(store.trail) <= store.trail
    {
      hide Plays, Play, Taken, Known, Pids, Agrees, Tracked, After, Work;
      ok := true;
      FillUp();
      while net + img != {}
        invariant Valid() && flow.stop == Going && flow.filled && ok
        invariant old(store.trail) <= store.trail
        decreases Work(c, flow)
      {
        WindowsHold(c, log);
        ok := Round();
        if !ok {
          return;
        }
        FillUp();
      }
    }
  }

  /**
   * One run over the store's queue, or its first rows, whatever the downloads do. If it
   * comes through, the committed posts are in the index and the queue file holds the
   * others; stopped or not, no known post is lost, and with a queue free of repeats only
   * a streak of holes can stop it.
   */
  method Drain(store: Store, workers: nat, limit: nat) returns (ok: bool, done: nat, holes: nat, ghost c: Setup, ghost log: seq<Event>)
    requires store.Valid() && workers > 0
    modifies store
    ensures c == Setup(Batch(Unindexed(old(store.pendingRows), old(store.index.Keys)), limit), old(store.index.Keys), workers)
    ensures store.Valid() && old(store.trail) <= store.trail && Known(store.disk) == old(Known(store.disk))
    ensures c.Ok() && Plays(c, log) && store.index.Keys == Taken(c, Play(c, log).committed)
    ensures ok <==> Through(Play(c, log)) || c.queue == []
    ensures ok ==> done == |Play(c, log).committed| && holes == |Play(c, log).holes|
    ensures store.pendingRows == if ok && c.queue != [] then Unindexed(old(store.pendingRows), store.index.Keys) else old(store.pendingRows)
    ensures ok && c.queue != [] ==> store.disk.pending == store.pendingRows
    ensures !ok && OncePerPid(old(store.pendingRows)) ==> Play(c, log).stop == Streak && |SinceWhole(log)| == HOLE_STREAK * workers
    ensures ok && c.queue != [] ==> |SinceWhole(log)| < HOLE_STREAK * workers
  {
    hide Plays, Play, Taken, Unindexed, Pids, OncePerPid, Agrees, Tracked, Batch, SinceWhole;
    ghost var rows, index := store.pendingRows, store.index.Keys;
    var queue := store.Pending();
    BatchFacts(queue, limit);
    PlainQueue(store.disk, store.index, rows, store.pendingPids);
    var batch := Batch(queue, limit);
    c, log := Setup(batch, index, workers), [];
    if batch == [] {
      Nothing(c);
      return true, 0, 0, c, log;
    }
    var p := new Pipeline(batch, workers, store);
    ok := p.Run();
    done, holes, log := p.seqNo - p.holeCount, p.holeCount, p.log;
    StreakIff(c, log);
    if ok {
      store.CompactPending();
    } else {
      WhyStopped(c, log, rows, limit);
    }
  }

  /** A post queued twice in one batch, everything downloading well: the run aborts at its second commit. */
  lemma QueuedTwiceAborts(e: Entry, workers: nat, limit: nat)
    requires workers > 0 && limit != 1
    ensures var c := Setup(Batch(Unindexed([e, e], {}), limit), {}, workers);
      exists es :: Plays(c, es) && Play(c, es).stop == Refused(1)
  {
    MovedPostQueuedTwice(e);
    var c := Setup(Batch([e, e], limit), {}, workers);
    BothTaken(e, limit);
    hide *;
    RepeatReached(c, 1);
  }

  lemma BothTaken(e: Entry, limit: nat)
    requires limit != 1
    ensures var q := Batch([e, e], limit);
      |q| == 2 && q[0].pid == q[1].pid && OncePerPid(q[..1])
  {
  }

  lemma PlainQueue(d: Disk, index: map<string, Entry>, rows: seq<Entry>, pids: set<string>)
    requires Agrees(d, index, rows, pids)
    ensures PlainPids(Unindexed(rows, index.Keys)) && index.Keys == Pids(d.index) <= Known(d)
  {
    PidsOfPart(Unindexed(rows, index.Keys), rows);
  }

  lemma Nothing(c: Setup)
    ensures Plays(c, []) && Play(c, []) == START && Taken(c, []) == c.index
  {
  }

  lemma WhyStopped(c: Setup, es: seq<Event>, rows: seq<Entry>, limit: nat)
    requires c.Ok() && Plays(c, es) && Play(c, es).stop != Going && c.queue == Batch(Unindexed(rows, c.index), limit)
    ensures OncePerPid(rows) ==> Play(c, es).stop == Streak
  {
    hide *;
    if OncePerPid(rows) && Play(c, es).stop != Streak {
      UnindexedOnce(rows, c.index);
      BatchFacts(Unindexed(rows, c.index), limit);
      RefusedRepeats(c, es);
    }
  }

  lemma DueAfter(c: Setup, s: Flow, e: Event)
    requires e.Fetched? || e.Filled?
    ensures var t := After(c, s, e); t.due == s.due - {e.i} && t.filled == s.filled
  {
  }

  /** The loop stops where the windows say. */
  lemma RoomIs(c: Setup, s: Flow, n: nat)
    requires s.next + n <= |c.queue| && |s.net| + n <= c.workers && (n == 0 || |s.img| < c.Backlog())
    requires s.next + n == |c.queue| || |s.net| + n == c.workers || |s.img| >= c.Backlog()
    ensures Room(c, s) == n
  {
  }

  lemma SpanNone(n: nat, net: set<nat>)
    ensures net + Span(n, n) == net
  {
  }

  lemma SpanNext(lo: nat, mid: nat, hi: nat, net: set<nat>)
    requires lo <= mid < hi && net !! Span(lo, hi)
    ensures net + Span(lo, mid) + {mid} == net + Span(lo, mid + 1)
    ensures |net + Span(lo, mid) + {mid}| == |net + Span(lo, mid)| + 1
  {
    LessOne(net + Span(lo, mid), mid);
  }

  lemma SpanAdds(lo: nat, mid: nat, hi: nat, net: set<nat>)
    requires lo <= mid <= hi && net !! Span(lo, hi)
    ensures |net + Span(lo, mid)| == |net| + mid - lo
  {
    assert net !! Span(lo, mid);
    JoinSize(net, Span(lo, mid));
  }

  lemma QueuedKnown(rows: seq<Entry>, i: nat, d: Disk)
    requires i < |rows| && Pids(rows) <= Known(d)
    ensures Known(d) + {rows[i].pid} == Known(d)
  {
    PidIn(rows, i);
  }

  lemma Shrinks(c: Setup, es: seq<Event>, e: Event)
    requires c.Ok() && Plays(c, es) && Enabled(c, Play(c, es), e)
    ensures var s := Play(c, es); var w := Work(c, After(c, s, e));
      (e.Fetched? || e.Filled? ==> w <= Work(c, s) - 2) && (e.Refill? ==> w < Work(c, s)) && (e.Wait? ==> w == Work(c, s) + 1)
  {
    Reached(c, es);
    SettlingShrinks(c, Play(c, es), e);
  }

  lemma DueIs(c: Setup, s: Flow, done: set<nat>)
    ensures After(c, s, Wait(done)) == s.(due := done, filled := false)
  {
  }
}
