/**
 * The two-stage download as a state machine: pages are fetched by a window of workers,
 * their images by a second stage whose backlog holds the first stage back. Which
 * downloads finish, in which order and how, is left open. Posts are named by their place
 * in the queue, so that two rows of the same post are two posts here.
 */
module WebFlow {
  import opened Common
  import opened WebDisk

  const ASSET_BACKLOG: nat := 2
  const HOLE_STREAK: nat := 2

  /** What a run starts from: its queue, the posts in the index, the size of the fetching window. */
  datatype Setup = Setup(queue: seq<Entry>, index: set<string>, workers: nat) {
    function Backlog(): nat { ASSET_BACKLOG * workers }

    function StreakLimit(): nat { HOLE_STREAK * workers }

    /** The queue holds no indexed post: the run drops those first. */
    ghost predicate Ok() {
      workers > 0 && Pids(queue) !! index
    }
  }

  /** A run goes on, was stopped by a streak of holes, or by a commit of a post already in the index. */
  datatype Stop = Going | Streak | Refused(at: nat)

  /**
   * Between two waits the posts in due are settled one by one; filled says that the
   * windows were filled up since.
   */
  datatype Flow = Flow(next: nat, net: set<nat>, img: set<nat>, due: set<nat>, filled: bool,
                       committed: seq<nat>, holes: set<nat>, streak: nat, stop: Stop)

  /** Fetched: a page settled; Filled: the images of a page settled. */
  datatype Event = Refill | Wait(done: set<nat>) | Fetched(i: nat, ok: bool) | Filled(i: nat, ok: bool)

  const START := Flow(0, {}, {}, {}, false, [], {}, 0, Going)

  // ---- steps ----

  ghost function Span(lo: nat, hi: nat): (r: set<nat>)
    ensures forall i: nat :: i in r <==> lo <= i < hi
    ensures |r| == MaxInt(0, hi - lo)
    decreases hi
  {
    if lo >= hi then {} else Span(lo, hi - 1) + {hi - 1}
  }

  /** How many posts filling up hands out. */
  function Room(c: Setup, s: Flow): nat {
    if |s.img| >= c.Backlog() then 0
    else MaxInt(0, MinInt(|c.queue| - s.next, c.workers - |s.net|))
  }

  /** The posts in the index by now. */
  function Taken(c: Setup, committed: seq<nat>): set<string> {
    c.index + set i | i in committed && i < |c.queue| :: c.queue[i].pid
  }

  predicate Enabled(c: Setup, s: Flow, e: Event) {
    && s.stop == Going
    && match e
       case Refill => !s.filled && s.due == {}
       case Wait(done) => s.filled && done != {} && done <= s.net + s.img
       case Fetched(i, _) => i in s.due && i in s.net
       case Filled(i, _) => i in s.due && i in s.img
  }

  function HoleAt(c: Setup, s: Flow, i: nat): Flow {
    s.(holes := s.holes + {i}, streak := s.streak + 1,
       stop := if s.streak + 1 < c.StreakLimit() then Going else Streak)
  }

  /** The store commits no post twice. */
  function CommitAt(c: Setup, s: Flow, i: nat): Flow {
    if i < |c.queue| && c.queue[i].pid in Taken(c, s.committed) then s.(streak := 0, stop := Refused(i))
    else s.(streak := 0, committed := s.committed + [i])
  }

  ghost function After(c: Setup, s: Flow, e: Event): Flow {
    match e
    case Refill =>
      var n := Room(c, s);
      s.(next := s.next + n, net := s.net + Span(s.next, s.next + n), filled := true)
    case Wait(done) => s.(due := done, filled := false)
    case Fetched(i, ok) =>
      var t := s.(net := s.net - {i}, due := s.due - {i});
      if ok then t.(img := t.img + {i}) else HoleAt(c, t, i)
    case Filled(i, ok) =>
      var t := s.(img := s.img - {i}, due := s.due - {i});
      if ok then CommitAt(c, t, i) else HoleAt(c, t, i)
  }

  ghost function Play(c: Setup, es: seq<Event>): Flow {
    if es == [] then START else After(c, Play(c, es[..|es| - 1]), es[|es| - 1])
  }

  ghost predicate Plays(c: Setup, es: seq<Event>) {
    es == [] || (Plays(c, es[..|es| - 1]) && Enabled(c, Play(c, es[..|es| - 1]), es[|es| - 1]))
  }

  lemma PlayNext(c: Setup, es: seq<Event>, e: Event)
    ensures Play(c, es + [e]) == After(c, Play(c, es), e)
    ensures Plays(c, es + [e]) <==> Plays(c, es) && Enabled(c, Play(c, es), e)
  {
    assert (es + [e])[..|es|] == es;
  }

  /** Nothing in flight and nothing left to hand out. */
  predicate Through(s: Flow) {
    s.stop == Going && s.filled && s.net + s.img == {}
  }

  // ---- what every run keeps ----

  /** Every post handed out is in exactly one place. */
  ghost predicate Placed(s: Flow) {
    && s.net !! s.img && s.net !! s.holes && s.img !! s.holes && Distinct(s.committed)
    && (forall i :: i in s.committed ==> i !in s.net && i !in s.img && i !in s.holes)
    && (s.stop.Refused? ==> var i := s.stop.at; i !in s.net && i !in s.img && i !in s.holes && i !in s.committed)
    && (forall i: nat :: i < s.next <==> i in s.net || i in s.img || i in s.holes || i in s.committed || s.stop == Refused(i))
  }

  /** Both windows hold, and filling up leaves no room in them while posts are left. */
  ghost predicate Windows(c: Setup, s: Flow) {
    && s.next <= |c.queue| && |s.net| <= c.workers && |s.net| + |s.img| <= c.workers + c.Backlog() - 1
    && s.due <= s.net + s.img && (s.filled ==> s.due == {})
    && (s.filled ==> s.next == |c.queue| || |s.net| >= c.workers || |s.img| >= c.Backlog())
    && (s.stop == Going ==> s.streak < c.StreakLimit())
  }

  /** No post is committed twice, and a refused one is in the index already. */
  ghost predicate Once(c: Setup, s: Flow) {
    && (forall i :: i in s.committed ==> i < |c.queue| && c.queue[i].pid !in c.index)
    && (forall i, j :: i in s.committed && j in s.committed && i != j ==> c.queue[i].pid != c.queue[j].pid)
    && (s.stop.Refused? ==> s.stop.at < |c.queue| && c.queue[s.stop.at].pid in Taken(c, s.committed))
  }

  ghost predicate Inv(c: Setup, s: Flow) {
    Placed(s) && Windows(c, s) && Once(c, s)
  }

  lemma JoinSize(a: set<nat>, b: set<nat>)
    requires a !! b
    ensures |a + b| == |a| + |b|
  {
    assert a + b - a == b;
  }

  lemma LessOne(a: set<nat>, i: nat)
    ensures i in a ==> |a - {i}| == |a| - 1
    ensures i !in a ==> |a + {i}| == |a| + 1
  {
    if i in a { assert a == a - {i} + {i}; }
  }

  lemma RefillKeeps(c: Setup, s: Flow)
    requires c.Ok() && Inv(c, s) && Enabled(c, s, Refill)
    ensures Inv(c, After(c, s, Refill))
  {
    hide Once, Placed, Windows, Span, Room;
    SameOnce(c, s, After(c, s, Refill));
    RefillPlaced(s, Room(c, s));
    RefillWindows(c, s);
  }

  lemma RefillPlaced(s: Flow, n: nat)
    requires Placed(s) && s.stop == Going
    ensures s.net !! Span(s.next, s.next + n)
    ensures Placed(s.(next := s.next + n, net := s.net + Span(s.next, s.next + n), filled := true))
  {
  }

  lemma RefillWindows(c: Setup, s: Flow)
    requires c.Ok() && Windows(c, s) && Enabled(c, s, Refill) && s.net !! Span(s.next, s.next + Room(c, s))
    ensures Windows(c, After(c, s, Refill))
  {
    hide Span;
    JoinSize(s.net, Span(s.next, s.next + Room(c, s)));
  }

  lemma SameOnce(c: Setup, s: Flow, t: Flow)
    requires Once(c, s) && t.committed == s.committed && !t.stop.Refused?
    ensures Once(c, t)
  {
  }

  lemma FetchedKeeps(c: Setup, s: Flow, i: nat, ok: bool)
    requires c.Ok() && Inv(c, s) && Enabled(c, s, Fetched(i, ok))
    ensures Inv(c, After(c, s, Fetched(i, ok)))
  {
    hide Once, Placed, Windows;
    SameOnce(c, s, After(c, s, Fetched(i, ok)));
    FetchedPlaced(c, s, i, ok);
    FetchedWindows(c, s, i, ok);
  }

  lemma FetchedPlaced(c: Setup, s: Flow, i: nat, ok: bool)
    requires Placed(s) && Enabled(c, s, Fetched(i, ok))
    ensures i !in s.img && Placed(After(c, s, Fetched(i, ok)))
  {
  }

  lemma FetchedWindows(c: Setup, s: Flow, i: nat, ok: bool)
    requires c.Ok() && Windows(c, s) && Enabled(c, s, Fetched(i, ok)) && i !in s.img
    ensures Windows(c, After(c, s, Fetched(i, ok)))
  {
    LessOne(s.net, i);
    LessOne(s.img, i);
  }

  lemma FilledKeeps(c: Setup, s: Flow, i: nat, ok: bool)
    requires c.Ok() && Inv(c, s) && Enabled(c, s, Filled(i, ok))
    ensures Inv(c, After(c, s, Filled(i, ok)))
  {
    LessOne(s.img, i);
    FilledOnce(c, s, i, ok);
    hide Once, Taken;
    FilledPlaced(c, s, i, ok);
    hide Placed;
  }

  lemma FilledOnce(c: Setup, s: Flow, i: nat, ok: bool)
    requires Inv(c, s) && Enabled(c, s, Filled(i, ok))
    ensures Once(c, After(c, s, Filled(i, ok)))
  {
    assert i < s.next;
    hide Placed;
    if ok {
      CommitKeepsOnce(c, s.(img := s.img - {i}, due := s.due - {i}), i);
    } else {
      SameOnce(c, s, After(c, s, Filled(i, ok)));
    }
  }

  lemma FilledPlaced(c: Setup, s: Flow, i: nat, ok: bool)
    requires Placed(s) && Enabled(c, s, Filled(i, ok))
    ensures Placed(After(c, s, Filled(i, ok)))
  {
    hide Taken;
    DistinctSnoc(s.committed, i);
  }

  lemma CommitKeepsOnce(c: Setup, s: Flow, i: nat)
    requires Once(c, s) && s.stop == Going && i < |c.queue|
    ensures Once(c, CommitAt(c, s, i))
  {
    if c.queue[i].pid !in Taken(c, s.committed) {
      assert forall j :: j in s.committed ==> c.queue[j].pid in Taken(c, s.committed);
    }
  }

  lemma StepKeeps(c: Setup, s: Flow, e: Event)
    requires c.Ok() && Inv(c, s) && Enabled(c, s, e)
    ensures Inv(c, After(c, s, e))
  {
    match e
    case Refill => RefillKeeps(c, s);
    case Wait(_) => SameOnce(c, s, After(c, s, e));
    case Fetched(i, ok) => FetchedKeeps(c, s, i, ok);
    case Filled(i, ok) => FilledKeeps(c, s, i, ok);
  }

  /** Whatever finishes in whatever order: each post is in one place, and both windows hold. */
  lemma {:induction false} Reached(c: Setup, es: seq<Event>)
    requires c.Ok() && Plays(c, es)
    ensures Inv(c, Play(c, es))
  {
    hide Inv, Enabled, After;
    if es == [] {
      StartOk(c);
    } else {
      Reached(c, es[..|es| - 1]);
      StepKeeps(c, Play(c, es[..|es| - 1]), es[|es| - 1]);
    }
  }

  lemma StartOk(c: Setup)
    requires c.Ok()
    ensures Inv(c, START)
  {
  }

  /** Both windows in numbers: no page is fetched beyond the workers, and none while as many posts as the backlog wait for images. */
  lemma WindowSizes(c: Setup, es: seq<Event>)
    requires c.Ok() && Plays(c, es)
    ensures var s := Play(c, es);
      && |s.net| <= c.workers && |s.net| + |s.img| < (ASSET_BACKLOG + 1) * c.workers
      && (s.filled ==> s.next == |c.queue| || |s.net| == c.workers || |s.img| >= ASSET_BACKLOG * c.workers)
  {
    Reached(c, es);
  }

  // ---- what a streak is ----

  predicate IsHole(e: Event) {
    (e.Fetched? || e.Filled?) && !e.ok
  }

  /** A post came through both stages. */
  predicate IsWhole(e: Event) {
    e.Filled? && e.ok
  }

  /** The holes of a log since a post last came through. */
  ghost function SinceWhole(es: seq<Event>): set<nat> {
    set k: nat | k < |es| && IsHole(es[k]) && NoneWhole(es, k)
  }

  ghost predicate NoneWhole(es: seq<Event>, k: nat) {
    forall j :: k < j < |es| ==> !IsWhole(es[j])
  }

  lemma SinceNext(es: seq<Event>, e: Event)
    ensures SinceWhole(es + [e]) == if IsWhole(e) then {} else if IsHole(e) then SinceWhole(es) + {|es|} else SinceWhole(es)
  {
    var more := es + [e];
    forall k: nat | k < |es|
      ensures NoneWhole(more, k) <==> NoneWhole(es, k) && !IsWhole(e)
    {
      assert more[|es|] == e;
      assert forall j :: 0 <= j < |es| ==> more[j] == es[j];
    }
  }

  lemma StreakNext(c: Setup, s: Flow, e: Event)
    ensures After(c, s, e).streak == if IsWhole(e) then 0 else if IsHole(e) then s.streak + 1 else s.streak
  {
  }

  lemma {:induction false} StreakIs(c: Setup, es: seq<Event>)
    ensures Play(c, es).streak == |SinceWhole(es)|
  {
    if es == [] {
      assert SinceWhole(es) == {};
    } else {
      var n := |es| - 1;
      StreakIs(c, es[..n]);
      assert es == es[..n] + [es[n]];
      SinceNext(es[..n], es[n]);
      StreakNext(c, Play(c, es[..n]), es[n]);
      assert |es[..n]| !in SinceWhole(es[..n]);
      hide SinceWhole, After, IsHole, IsWhole;
    }
  }

  lemma StopNext(c: Setup, s: Flow, e: Event)
    requires c.workers > 0 && s.stop == Going && s.streak < c.StreakLimit()
    ensures var t := After(c, s, e); t.streak <= c.StreakLimit() && (t.stop == Streak <==> t.streak == c.StreakLimit())
  {
    hide Room, Taken, Span;
  }

  lemma GoingBelow(c: Setup, es: seq<Event>, e: Event)
    requires c.Ok() && Plays(c, es) && Enabled(c, Play(c, es), e)
    ensures var s := Play(c, es); c.workers > 0 && s.stop == Going && s.streak < c.StreakLimit()
  {
    Reached(c, es);
  }

  lemma StoppedByStreak(c: Setup, es: seq<Event>)
    requires c.Ok() && Plays(c, es)
    ensures var s := Play(c, es); s.streak <= c.StreakLimit() && (s.stop == Streak <==> s.streak == c.StreakLimit())
  {
    if es != [] {
      var n := |es| - 1;
      hide Enabled, After;
      GoingBelow(c, es[..n], es[n]);
      StopNext(c, Play(c, es[..n]), es[n]);
    }
  }

  /**
   * A run is stopped by a streak if and only if, since a post last came through both
   * stages, as many became holes as the limit says: told from the log alone.
   */
  lemma StreakIff(c: Setup, es: seq<Event>)
    requires c.Ok() && Plays(c, es)
    ensures Play(c, es).stop == Streak <==> |SinceWhole(es)| == HOLE_STREAK * c.workers
    ensures |SinceWhole(es)| <= HOLE_STREAK * c.workers
  {
    StreakIs(c, es);
    StoppedByStreak(c, es);
    hide Plays, Play, SinceWhole;
  }

  /** The posts that came through both stages, in the order of the log. */
  ghost function WholePosts(es: seq<Event>): seq<nat> {
    if es == [] then []
    else WholePosts(es[..|es| - 1]) + if IsWhole(es[|es| - 1]) then [es[|es| - 1].i] else []
  }

  ghost function HolePosts(es: seq<Event>): set<nat> {
    set k | 0 <= k < |es| && IsHole(es[k]) :: es[k].i
  }

  lemma HolesNext(es: seq<Event>, e: Event)
    ensures HolePosts(es + [e]) == HolePosts(es) + if IsHole(e) then {e.i} else {}
  {
    var more := es + [e];
    assert more[|es|] == e;
    assert forall k :: 0 <= k < |es| ==> more[k] == es[k];
  }

  /** Committed are the posts that came through, in their order, but for a last one refused; holes are those that did not. */
  lemma {:induction false} LogTells(c: Setup, es: seq<Event>)
    requires Plays(c, es)
    ensures var s := Play(c, es);
      && WholePosts(es) == s.committed + (if s.stop.Refused? then [s.stop.at] else [])
      && HolePosts(es) == s.holes
  {
    if es != [] {
      var n := |es| - 1;
      LogTells(c, es[..n]);
      assert es == es[..n] + [es[n]];
      HolesNext(es[..n], es[n]);
      TellNext(c, Play(c, es[..n]), es[n]);
      hide After, HolePosts, IsHole, IsWhole;
    }
  }

  lemma TellNext(c: Setup, s: Flow, e: Event)
    requires Enabled(c, s, e)
    ensures var t := After(c, s, e);
      && t.committed + (if t.stop.Refused? then [t.stop.at] else []) == s.committed + (if IsWhole(e) then [e.i] else [])
      && t.holes == s.holes + (if IsHole(e) then {e.i} else {}) && !s.stop.Refused?
  {
    hide Room, Taken, Span;
  }

  // ---- a run ends ----

  /** How much is left to do. */
  ghost function Work(c: Setup, s: Flow): (r: int)
    ensures s.next <= |c.queue| ==> r >= 0
  {
    2 * (3 * (|c.queue| - s.next) + 2 * |s.net| + |s.img|) + if s.filled then 0 else 1
  }

  /** Settling a post uses something up; waiting and filling up together use up nothing. */
  lemma SettlingShrinks(c: Setup, s: Flow, e: Event)
    requires c.Ok() && Inv(c, s) && Enabled(c, s, e)
    ensures e.Fetched? || e.Filled? ==> Work(c, After(c, s, e)) <= Work(c, s) - 2
    ensures e.Refill? ==> Work(c, After(c, s, e)) < Work(c, s)
    ensures e.Wait? ==> Work(c, After(c, s, e)) == Work(c, s) + 1
  {
    hide Once;
    match e
    case Refill =>
      var n := Room(c, s);
      JoinSize(s.net, Span(s.next, s.next + n));
    case Wait(_) =>
    case Fetched(i, _) =>
      LessOne(s.net, i);
      LessOne(s.img, i);
    case Filled(i, _) =>
      LessOne(s.img, i);
  }

  /** A run that is neither stopped nor through can go on. */
  lemma NeverStuck(c: Setup, es: seq<Event>)
    requires c.Ok() && Plays(c, es)
    ensures var s := Play(c, es); s.stop == Going && !Through(s) ==> exists e :: Enabled(c, s, e)
  {
    Reached(c, es);
    var s := Play(c, es);
    if s.stop == Going && !Through(s) {
      if s.due != {} {
        var i :| i in s.due;
        assert Enabled(c, s, if i in s.net then Fetched(i, true) else Filled(i, true));
      } else if s.filled {
        assert Enabled(c, s, Wait(s.net + s.img));
      } else {
        assert Enabled(c, s, Refill);
      }
    }
  }

  /**
   * A run that comes through leaves every row of the queue as exactly one commit or one
   * hole, and no post committed twice: of two rows of one post, one became a hole.
   */
  lemma Finale(c: Setup, es: seq<Event>)
    requires c.Ok() && Plays(c, es) && Through(Play(c, es))
    ensures var s := Play(c, es);
      && Distinct(s.committed) && |s.committed| + |s.holes| == |c.queue|
      && (forall i: nat :: i < |c.queue| <==> (i in s.committed <==> i !in s.holes))
      && (forall i, j :: 0 <= i < j < |c.queue| && c.queue[i].pid == c.queue[j].pid ==> i in s.holes || j in s.holes)
  {
    Reached(c, es);
    var s := Play(c, es);
    assert s.net == {} && s.img == {} && s.next == |c.queue|;
    ElemsSize(s.committed);
    assert Elems(s.committed) !! s.holes;
    assert Elems(s.committed) + s.holes == Upto(s.next);
    JoinSize(Elems(s.committed), s.holes);
  }

  // ---- when a commit is refused ----

  lemma RefusedRepeats(c: Setup, es: seq<Event>)
    requires c.Ok() && Plays(c, es) && Play(c, es).stop.Refused?
    ensures !OncePerPid(c.queue)
  {
    Reached(c, es);
    var s := Play(c, es);
    var i := s.stop.at;
    PidIn(c.queue, i);
    var j :| j in s.committed && j < |c.queue| && c.queue[j].pid == c.queue[i].pid;
    assert j != i;
    assert c.queue[MinInt(i, j)].pid == c.queue[MaxInt(i, j)].pid;
  }

  /** The run that takes the posts in order, every download succeeding. */
  function Fetching(n: nat): seq<Event> {
    [Wait({n}), Fetched(n, true), Refill, Wait({n}), Filled(n, true)]
  }

  function InOrder(n: nat): seq<Event> {
    if n == 0 then [Refill] else InOrder(n - 1) + Fetching(n - 1) + [Refill]
  }

  ghost function Places(n: nat): (r: seq<nat>)
    ensures |r| == n && forall i :: 0 <= i < n ==> r[i] == i
    ensures forall i: nat :: i in r <==> i < n
  {
    if n == 0 then [] else Places(n - 1) + [n - 1]
  }

  /** Where that run is when the first n posts are committed. */
  ghost function DoneFirst(c: Setup, n: nat): Flow {
    var next := MinInt(|c.queue|, n + c.workers);
    Flow(next, Span(n, next), {}, {}, true, Places(n), {}, 0, Going)
  }

  lemma PlayFive(c: Setup, es: seq<Event>, e1: Event, e2: Event, e3: Event, e4: Event, e5: Event)
    ensures var s := Play(c, es); var s1 := After(c, s, e1); var s2 := After(c, s1, e2); var s3 := After(c, s2, e3); var s4 := After(c, s3, e4);
      && Play(c, es + [e1, e2, e3, e4, e5]) == After(c, s4, e5)
      && (Plays(c, es) && Enabled(c, s, e1) && Enabled(c, s1, e2) && Enabled(c, s2, e3) && Enabled(c, s3, e4) && Enabled(c, s4, e5) ==>
            Plays(c, es + [e1, e2, e3, e4, e5]))
  {
    hide Play, Plays, After, Enabled;
    PlayNext(c, es, e1);
    PlayNext(c, es + [e1], e2);
    PlayNext(c, es + [e1] + [e2], e3);
    PlayNext(c, es + [e1] + [e2] + [e3], e4);
    PlayNext(c, es + [e1] + [e2] + [e3] + [e4], e5);
    assert es + [e1] + [e2] + [e3] + [e4] + [e5] == es + [e1, e2, e3, e4, e5];
  }

  /** Post n's page is there, from where the first n are committed. */
  ghost function Paged(c: Setup, n: nat): Flow {
    var next := MinInt(|c.queue|, n + c.workers);
    Flow(next, Span(n + 1, next), {n}, {}, false, Places(n), {}, 0, Going)
  }

  /** The windows are filled again, and its images awaited. */
  ghost function Awaited(c: Setup, n: nat): Flow {
    var next := MinInt(|c.queue|, n + 1 + c.workers);
    Flow(next, Span(n + 1, next), {n}, {}, true, Places(n), {}, 0, Going)
  }

  /** They are there too, and about to be settled. */
  ghost function Midway(c: Setup, n: nat): Flow {
    Awaited(c, n).(due := {n}, filled := false)
  }

  lemma SpanLess(lo: nat, hi: nat)
    requires lo < hi
    ensures Span(lo, hi) - {lo} == Span(lo + 1, hi) && lo in Span(lo, hi)
  {
  }

  lemma SpanJoin(lo: nat, mid: nat, hi: nat)
    requires lo <= mid <= hi
    ensures Span(lo, mid) + Span(mid, hi) == Span(lo, hi)
  {
  }

  lemma ToPaged(c: Setup, n: nat)
    requires c.workers > 0 && n < |c.queue|
    ensures var s := DoneFirst(c, n); var s1 := After(c, s, Wait({n}));
      && Enabled(c, s, Wait({n})) && Enabled(c, s1, Fetched(n, true))
      && After(c, s1, Fetched(n, true)) == Paged(c, n)
  {
    hide Span, Places;
    SpanLess(n, MinInt(|c.queue|, n + c.workers));
  }

  /** Filling up only moves the place of handing out and the fetching window. */
  lemma PagedParts(c: Setup, n: nat)
    ensures var s := Paged(c, n);
      && s.next == MinInt(|c.queue|, n + c.workers) && s.net == Span(n + 1, s.next) && Enabled(c, s, Refill)
    ensures var more := MinInt(|c.queue|, n + 1 + c.workers);
      Paged(c, n).(next := more, net := Span(n + 1, more), filled := true) == Awaited(c, n)
  {
    hide Span, Places, MinInt;
  }

  lemma ToAwaited(c: Setup, n: nat)
    requires c.workers > 0 && n < |c.queue|
    ensures Enabled(c, Paged(c, n), Refill) && After(c, Paged(c, n), Refill) == Awaited(c, n)
  {
    PagedRoom(c, n);
    MinNext(|c.queue|, n + c.workers);
    assert n + 1 <= MinInt(|c.queue|, n + c.workers);
    hide *;
    PagedParts(c, n);
    SpanJoin(n + 1, MinInt(|c.queue|, n + c.workers), MinInt(|c.queue|, n + 1 + c.workers));
    RefillIs(c, Paged(c, n), MinInt(|c.queue|, n + 1 + c.workers), Span(n + 1, MinInt(|c.queue|, n + 1 + c.workers)));
  }

  lemma MinNext(m: nat, k: nat)
    ensures MinInt(m, k) <= MinInt(m, k + 1)
  {
  }

  lemma ToMidway(c: Setup, n: nat)
    requires n < |c.queue|
    ensures Enabled(c, Awaited(c, n), Wait({n})) && After(c, Awaited(c, n), Wait({n})) == Midway(c, n)
    ensures Enabled(c, Midway(c, n), Filled(n, true))
  {
    hide Span, Places;
  }

  lemma RefillIs(c: Setup, s: Flow, more: nat, net: set<nat>)
    requires s.next + Room(c, s) == more && s.net + Span(s.next, more) == net
    ensures After(c, s, Refill) == s.(next := more, net := net, filled := true)
  {
    hide Span, Room;
  }

  lemma PagedRoom(c: Setup, n: nat)
    requires c.workers > 0 && n < |c.queue|
    ensures MinInt(|c.queue|, n + c.workers) + Room(c, Paged(c, n)) == MinInt(|c.queue|, n + 1 + c.workers)
  {
    hide Places;
    var s := Paged(c, n);
    assert s.next == MinInt(|c.queue|, n + c.workers) && |s.img| == 1 && |s.net| == s.next - (n + 1);
  }

  lemma InOrderStep(c: Setup, es: seq<Event>, n: nat)
    requires c.workers > 0 && n < |c.queue| && Plays(c, es) && Play(c, es) == DoneFirst(c, n)
    ensures Plays(c, es + Fetching(n)) && Play(c, es + Fetching(n)) == After(c, Midway(c, n), Filled(n, true))
  {
    hide After, Play, Plays, DoneFirst, Paged, Awaited, Midway, Enabled;
    ToPaged(c, n);
    ToAwaited(c, n);
    ToMidway(c, n);
    PlayFive(c, es, Wait({n}), Fetched(n, true), Refill, Wait({n}), Filled(n, true));
  }

  lemma CommittedNext(c: Setup, n: nat)
    requires c.workers > 0 && n < |c.queue|
    requires c.queue[n].pid !in c.index && forall i :: 0 <= i < n ==> c.queue[i].pid != c.queue[n].pid
    ensures var s := After(c, Midway(c, n), Filled(n, true)); Enabled(c, s, Refill) && After(c, s, Refill) == DoneFirst(c, n + 1)
  {
    var next := MinInt(|c.queue|, n + 1 + c.workers);
    assert Span(next, next) == {};
    assert c.queue[n].pid !in Taken(c, Places(n));
    hide Span;
  }

  lemma {:induction false} InOrderReaches(c: Setup, n: nat)
    requires c.Ok() && n <= |c.queue| && OncePerPid(c.queue[..n])
    ensures Plays(c, InOrder(n)) && Play(c, InOrder(n)) == DoneFirst(c, n)
  {
    hide *;
    if n == 0 {
      InOrderStarts(c);
    } else {
      PartOnce(c.queue, n);
      InOrderReaches(c, n - 1);
      NotIndexed(c, n - 1);
      InOrderStep(c, InOrder(n - 1), n - 1);
      CommittedNext(c, n - 1);
      PlayNext(c, InOrder(n - 1) + Fetching(n - 1), Refill);
      InOrderNext(n);
    }
  }

  lemma InOrderNext(n: nat)
    ensures n > 0 ==> InOrder(n) == InOrder(n - 1) + Fetching(n - 1) + [Refill]
  {
  }

  lemma InOrderStarts(c: Setup)
    requires c.Ok()
    ensures Plays(c, InOrder(0)) && Play(c, InOrder(0)) == DoneFirst(c, 0)
  {
    PlayNext(c, [], Refill);
    assert [] + [Refill] == InOrder(0);
    assert {} + Span(0, MinInt(|c.queue|, c.workers)) == Span(0, MinInt(|c.queue|, c.workers));
  }

  lemma PartOnce(rows: seq<Entry>, n: nat)
    requires 0 < n <= |rows| && OncePerPid(rows[..n])
    ensures OncePerPid(rows[..n - 1]) && forall i :: 0 <= i < n - 1 ==> rows[i].pid != rows[n - 1].pid
  {
    assert forall i :: 0 <= i < n ==> rows[..n][i] == rows[i];
    assert forall i :: 0 <= i < n - 1 ==> rows[..n - 1][i] == rows[i];
  }

  lemma NotIndexed(c: Setup, n: nat)
    requires c.Ok() && n < |c.queue|
    ensures c.workers > 0 && c.queue[n].pid !in c.index
  {
    PidIn(c.queue, n);
  }

  lemma {:induction false} FirstRepeat(rows: seq<Entry>) returns (n: nat)
    requires !OncePerPid(rows)
    ensures n < |rows| && OncePerPid(rows[..n]) && exists i :: 0 <= i < n && rows[i].pid == rows[n].pid
  {
    n := |rows| - 1;
    if !OncePerPid(rows[..n]) {
      n := FirstRepeat(rows[..n]);
      assert rows[..|rows| - 1][..n] == rows[..n];
    }
  }

  lemma RepeatRefused(c: Setup, n: nat)
    requires n < |c.queue| && exists i :: 0 <= i < n && c.queue[i].pid == c.queue[n].pid
    ensures After(c, Midway(c, n), Filled(n, true)).stop == Refused(n)
  {
    var i :| 0 <= i < n && c.queue[i].pid == c.queue[n].pid;
    assert i in Places(n);
  }

  /** Taking the posts in order runs into the first repeat. */
  lemma RepeatReached(c: Setup, n: nat)
    requires c.Ok() && n < |c.queue| && OncePerPid(c.queue[..n])
    requires exists i :: 0 <= i < n && c.queue[i].pid == c.queue[n].pid
    ensures exists es :: Plays(c, es) && Play(c, es).stop == Refused(n)
  {
    hide *;
    InOrderReaches(c, n);
    NotIndexed(c, n);
    InOrderStep(c, InOrder(n), n);
    RepeatRefused(c, n);
  }

  /**
   * Some order of completions makes the store refuse a commit if and only if the queue
   * holds a post twice.
   */
  lemma RefusedIff(c: Setup)
    requires c.Ok()
    ensures (exists es :: Plays(c, es) && Play(c, es).stop.Refused?) <==> !OncePerPid(c.queue)
  {
    hide *;
    if es :| Plays(c, es) && Play(c, es).stop.Refused? {
      RefusedRepeats(c, es);
    }
    if !OncePerPid(c.queue) {
      var n := FirstRepeat(c.queue);
      RepeatReached(c, n);
    }
  }
}
