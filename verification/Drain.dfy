/**
 * The concurrent drain of an article queue: workers fetch inside a dispatch
 * window, one committer stores what is ready. A step relation over everything the
 * threads share, for any number of workers and any interleaving.
 */
module Drain {
  import opened Common

  /** What has become of one queue entry. */
  datatype Status = Queued | Flying | Ready | Popped | Committed | Hole

  /** Checking holds or wants the lock to test the dispatch condition; Asleep waits on it. */
  datatype Worker = Checking | Asleep | Fetching(index: nat) | Exited

  /**
   * The committing thread: at the loop test, inside the timed wait, storing one
   * article, counted but not yet notifying, joining, done.
   */
  datatype Main = Head | Waiting | Storing(index: nat) | Notifying | Joining | Finished

  datatype State = State(nextDispatch: nat, committed: nat, holes: nat, inFlight: nat,
                         status: seq<Status>, log: seq<nat>, main: Main, workers: seq<Worker>)
  {
    function Processed(): nat { committed + holes }
  }

  function Init(n: nat, w: nat): State {
    State(0, 0, 0, 0, seq(n, _ => Queued), [], Head, seq(w, _ => Checking))
  }

  datatype Event =
    | Dispatch(w: nat) | Sleep(w: nat) | Spurious(w: nat) | Exit(w: nat)
    | FetchOk(w: nat) | FetchHole(w: nat)
    | Enter | Timeout | Pop | Leave | Commit | Notify | Quit | Join

  // ---- steps ----

  predicate WindowOpen(s: State) {
    s.nextDispatch < s.committed + s.holes + |s.workers|
  }

  /** The smallest ready index, or the queue length. */
  function FirstReady(status: seq<Status>): (i: nat)
    ensures i <= |status|
    ensures i < |status| ==> status[i] == Ready
    ensures forall j :: 0 <= j < i ==> status[j] != Ready
  {
    if status == [] then 0
    else if status[0] == Ready then 0
    else 1 + FirstReady(status[1..])
  }

  function Wake(w: Worker): Worker {
    if w == Asleep then Checking else w
  }

  function WakeAll(ws: seq<Worker>): (r: seq<Worker>)
    ensures |r| == |ws|
  {
    seq(|ws|, k requires 0 <= k < |ws| => Wake(ws[k]))
  }

  predicate Enabled(s: State, e: Event) {
    match e
    case Dispatch(w) => w < |s.workers| && s.workers[w] == Checking && s.nextDispatch < |s.status| && WindowOpen(s)
    case Sleep(w) => w < |s.workers| && s.workers[w] == Checking && s.nextDispatch < |s.status| && !WindowOpen(s)
    case Exit(w) => w < |s.workers| && s.workers[w] == Checking && s.nextDispatch >= |s.status|
    case Spurious(w) => w < |s.workers| && s.workers[w] == Asleep
    case FetchOk(w) => w < |s.workers| && s.workers[w].Fetching? && s.workers[w].index < |s.status| && s.inFlight > 0
    case FetchHole(w) => w < |s.workers| && s.workers[w].Fetching? && s.workers[w].index < |s.status| && s.inFlight > 0
    case Enter => s.main == Head && s.Processed() < |s.status|
    case Quit => s.main == Head && s.Processed() >= |s.status|
    case Pop => s.main == Waiting && FirstReady(s.status) < |s.status|
    case Timeout => s.main == Waiting && FirstReady(s.status) == |s.status| && s.Processed() < |s.status|
    case Leave => s.main == Waiting && FirstReady(s.status) == |s.status| && s.Processed() >= |s.status|
    case Commit => s.main.Storing? && s.main.index < |s.status|
    case Notify => s.main == Notifying
    case Join => s.main == Joining && forall k :: 0 <= k < |s.workers| ==> s.workers[k] == Exited
  }

  /** The state after an event; each is one critical section or one call of a thread. */
  function After(s: State, e: Event): State
    requires Enabled(s, e)
  {
    match e
    case Dispatch(w) =>
      s.(workers := s.workers[w := Fetching(s.nextDispatch)],
         status := s.status[s.nextDispatch := Flying],
         nextDispatch := s.nextDispatch + 1, inFlight := s.inFlight + 1)
    case Sleep(w) => s.(workers := s.workers[w := Asleep])
    case Exit(w) => s.(workers := s.workers[w := Exited])
    case Spurious(w) => s.(workers := s.workers[w := Checking])
    case FetchOk(w) =>
      s.(status := s.status[s.workers[w].index := Ready],
         workers := s.workers[w := Checking], inFlight := s.inFlight - 1)
    case FetchHole(w) =>
      s.(status := s.status[s.workers[w].index := Hole], holes := s.holes + 1,
         workers := s.workers[w := Checking], inFlight := s.inFlight - 1)
    case Enter => s.(main := Waiting)
    case Quit => s.(main := Joining)
    case Pop => var i := FirstReady(s.status); s.(status := s.status[i := Popped], main := Storing(i))
    case Timeout => s
    case Leave => s.(main := Head)
    case Commit =>
      s.(status := s.status[s.main.index := Committed], log := s.log + [s.main.index],
         committed := s.committed + 1, main := Notifying)
    case Notify => s.(workers := WakeAll(s.workers), main := Head)
    case Join => s.(main := Finished)
  }

  // ---- counting ----

  function Num(status: seq<Status>, x: Status): nat {
    if status == [] then 0 else Num(status[1..], x) + if status[0] == x then 1 else 0
  }

  lemma {:induction false} NumUpdate(status: seq<Status>, i: nat, v: Status, x: Status)
    requires i < |status|
    ensures Num(status[i := v], x) + (if status[i] == x then 1 else 0) == Num(status, x) + if v == x then 1 else 0
  {
    if i > 0 {
      NumUpdate(status[1..], i - 1, v, x);
      assert status[i := v][1..] == status[1..][i - 1 := v];
    } else {
      assert status[i := v][1..] == status[1..];
    }
  }

  lemma {:induction false} NumTotal(status: seq<Status>)
    ensures Num(status, Queued) + Num(status, Flying) + Num(status, Ready)
            + Num(status, Popped) + Num(status, Committed) + Num(status, Hole) == |status|
  {
    if status != [] { NumTotal(status[1..]); }
  }

  lemma {:induction false} NumPositive(status: seq<Status>, x: Status)
    ensures Num(status, x) > 0 <==> x in status
  {
    if status != [] { NumPositive(status[1..], x); }
  }

  datatype Kind = IsChecking | IsAsleep | IsFetching | IsExited

  function KindOf(w: Worker): Kind {
    match w
    case Checking => IsChecking
    case Asleep => IsAsleep
    case Fetching(_) => IsFetching
    case Exited => IsExited
  }

  function NumW(ws: seq<Worker>, x: Kind): nat {
    if ws == [] then 0 else NumW(ws[1..], x) + if KindOf(ws[0]) == x then 1 else 0
  }

  lemma {:induction false} NumWUpdate(ws: seq<Worker>, i: nat, v: Worker, x: Kind)
    requires i < |ws|
    ensures NumW(ws[i := v], x) + (if KindOf(ws[i]) == x then 1 else 0) == NumW(ws, x) + if KindOf(v) == x then 1 else 0
  {
    if i > 0 {
      NumWUpdate(ws[1..], i - 1, v, x);
      assert ws[i := v][1..] == ws[1..][i - 1 := v];
    } else {
      assert ws[i := v][1..] == ws[1..];
    }
  }

  lemma {:induction false} NumWTotal(ws: seq<Worker>)
    ensures NumW(ws, IsChecking) + NumW(ws, IsAsleep) + NumW(ws, IsFetching) + NumW(ws, IsExited) == |ws|
  {
    if ws != [] { NumWTotal(ws[1..]); }
  }

  lemma {:induction false} NumWFind(ws: seq<Worker>, x: Kind) returns (k: nat)
    requires NumW(ws, x) > 0
    ensures k < |ws| && KindOf(ws[k]) == x
  {
    if KindOf(ws[0]) == x {
      k := 0;
    } else {
      k := NumWFind(ws[1..], x);
      k := k + 1;
    }
  }

  lemma {:induction false} NumWAll(ws: seq<Worker>, x: Kind)
    requires NumW(ws, x) == |ws|
    ensures forall k :: 0 <= k < |ws| ==> KindOf(ws[k]) == x
  {
    if ws != [] {
      NumWBound(ws[1..], x);
      NumWAll(ws[1..], x);
    }
  }

  lemma {:induction false} NumWBound(ws: seq<Worker>, x: Kind)
    ensures NumW(ws, x) <= |ws|
  {
    if ws != [] { NumWBound(ws[1..], x); }
  }

  lemma {:induction false} WakeCounts(ws: seq<Worker>)
    ensures NumW(WakeAll(ws), IsAsleep) == 0
    ensures NumW(WakeAll(ws), IsChecking) == NumW(ws, IsChecking) + NumW(ws, IsAsleep)
    ensures NumW(WakeAll(ws), IsFetching) == NumW(ws, IsFetching)
    ensures NumW(WakeAll(ws), IsExited) == NumW(ws, IsExited)
  {
    if ws != [] {
      WakeCounts(ws[1..]);
      assert WakeAll(ws)[1..] == WakeAll(ws[1..]);
    }
  }

  // ---- the invariant ----

  /** The shared counters say what has become of the queue. */
  ghost predicate Counters(s: State) {
    && s.nextDispatch <= |s.status|
    && (forall i :: 0 <= i < |s.status| ==> (s.status[i] == Queued <==> i >= s.nextDispatch))
    && s.nextDispatch + Num(s.status, Queued) == |s.status|
    && s.committed == Num(s.status, Committed)
    && s.holes == Num(s.status, Hole)
    && s.inFlight == Num(s.status, Flying) == NumW(s.workers, IsFetching)
    && Num(s.status, Popped) == (if s.main.Storing? then 1 else 0)
  }

  /** Each fetch belongs to one worker, and what is being stored is popped. */
  ghost predicate Owners(s: State) {
    && (forall k :: 0 <= k < |s.workers| && s.workers[k].Fetching? ==>
          s.workers[k].index < |s.status| && s.status[s.workers[k].index] == Flying)
    && (forall j, k :: 0 <= j < k < |s.workers| && s.workers[j].Fetching? && s.workers[k].Fetching? ==>
          s.workers[j].index != s.workers[k].index)
    && (s.main.Storing? ==> s.main.index < |s.status| && s.status[s.main.index] == Popped)
  }

  /** The store saw every committed article once, in the order of the log. */
  ghost predicate Logged(s: State) {
    && Distinct(s.log) && |s.log| == s.committed
    && forall i: nat :: i in s.log <==> i < |s.status| && s.status[i] == Committed
  }

  /** Fetched but not yet counted as committed. */
  function Held(s: State): nat {
    Num(s.status, Ready) + Num(s.status, Popped)
  }

  /** The window, the sleepers, the exits. */
  ghost predicate Bounded(s: State) {
    && s.inFlight + Held(s) <= |s.workers|
    && NumW(s.workers, IsAsleep) <= Held(s) + (if s.main == Notifying then 1 else 0)
    && (NumW(s.workers, IsExited) > 0 ==> s.nextDispatch == |s.status|)
    && (s.main == Joining || s.main == Finished ==> s.Processed() == |s.status|)
    && (s.main == Finished ==> NumW(s.workers, IsExited) == |s.workers|)
  }

  ghost predicate Inv(s: State) {
    |s.workers| > 0 && Counters(s) && Owners(s) && Logged(s) && Bounded(s)
  }

  lemma NumMove(status: seq<Status>, i: nat, v: Status)
    requires i < |status| && status[i] != v
    ensures forall x ::
      Num(status[i := v], x) == Num(status, x) - (if status[i] == x then 1 else 0) + if v == x then 1 else 0
  {
    forall x
      ensures Num(status[i := v], x) == Num(status, x) - (if status[i] == x then 1 else 0) + if v == x then 1 else 0
    {
      NumUpdate(status, i, v, x);
    }
  }

  lemma NumWMove(ws: seq<Worker>, i: nat, v: Worker)
    requires i < |ws| && KindOf(ws[i]) != KindOf(v)
    ensures forall x ::
      NumW(ws[i := v], x) == NumW(ws, x) - (if KindOf(ws[i]) == x then 1 else 0) + if KindOf(v) == x then 1 else 0
  {
    forall x
      ensures NumW(ws[i := v], x) == NumW(ws, x) - (if KindOf(ws[i]) == x then 1 else 0) + if KindOf(v) == x then 1 else 0
    {
      NumWUpdate(ws, i, v, x);
    }
  }

  // ---- every step keeps the invariant ----

  lemma SleepStep(s: State, w: nat)
    requires Inv(s) && Enabled(s, Sleep(w))
    ensures Inv(After(s, Sleep(w)))
  {
    hide Num, NumW;
    NumWMove(s.workers, w, Asleep);
    NumWTotal(s.workers);
    NumTotal(s.status);
  }

  lemma ExitStep(s: State, w: nat)
    requires Inv(s) && Enabled(s, Exit(w))
    ensures Inv(After(s, Exit(w)))
  {
    hide Num, NumW;
    NumWMove(s.workers, w, Exited);
    NumWTotal(s.workers);
    NumTotal(s.status);
  }

  lemma SpuriousStep(s: State, w: nat)
    requires Inv(s) && Enabled(s, Spurious(w))
    ensures Inv(After(s, Spurious(w)))
  {
    hide Num, NumW;
    NumWMove(s.workers, w, Checking);
    NumWTotal(s.workers);
    NumTotal(s.status);
  }

  lemma DispatchStep(s: State, w: nat)
    requires Inv(s) && Enabled(s, Dispatch(w))
    ensures Inv(After(s, Dispatch(w)))
  {
    hide Num, NumW;
    var i := s.nextDispatch;
    NumWMove(s.workers, w, Fetching(i));
    NumMove(s.status, i, Flying);
    NumWTotal(s.workers);
    NumTotal(s.status);
    assert s.status[i] == Queued;
  }

  lemma FetchStep(s: State, e: Event)
    requires Inv(s) && Enabled(s, e) && (e.FetchOk? || e.FetchHole?)
    ensures Inv(After(s, e))
  {
    FetchCounts(s, e);
    FetchOwners(s, e);
    var i := s.workers[e.w].index;
    assert s.status[i] == Flying;
  }

  lemma FetchCounts(s: State, e: Event)
    requires Inv(s) && Enabled(s, e) && (e.FetchOk? || e.FetchHole?)
    ensures Counters(After(s, e)) && Bounded(After(s, e))
  {
    hide Num, NumW;
    var i := s.workers[e.w].index;
    NumWMove(s.workers, e.w, Checking);
    NumMove(s.status, i, if e.FetchOk? then Ready else Hole);
    NumTotal(s.status);
  }

  lemma FetchOwners(s: State, e: Event)
    requires Inv(s) && Enabled(s, e) && (e.FetchOk? || e.FetchHole?)
    ensures Owners(After(s, e))
  {
    hide Num, NumW;
    var i, t := s.workers[e.w].index, After(s, e);
    forall k | 0 <= k < |t.workers| && t.workers[k].Fetching?
      ensures t.workers[k] == s.workers[k] && t.workers[k].index != i
    {
      assert k != e.w;
    }
  }

  lemma PopStep(s: State)
    requires Inv(s) && Enabled(s, Pop)
    ensures Inv(After(s, Pop))
  {
    NumMove(s.status, FirstReady(s.status), Popped);
  }

  lemma CommitStep(s: State)
    requires Inv(s) && Enabled(s, Commit)
    ensures Inv(After(s, Commit))
  {
    var i := s.main.index;
    NumMove(s.status, i, Committed);
    DistinctSnoc(s.log, i);
  }

  lemma NotifyStep(s: State)
    requires Inv(s) && Enabled(s, Notify)
    ensures Inv(After(s, Notify))
  {
    WakeCounts(s.workers);
    var r := WakeAll(s.workers);
    assert forall k :: 0 <= k < |r| ==> (r[k].Fetching? <==> s.workers[k].Fetching?) && (r[k].Fetching? ==> r[k] == s.workers[k]);
  }

  lemma MainStep(s: State, e: Event)
    requires Inv(s) && Enabled(s, e) && (e.Enter? || e.Timeout? || e.Leave? || e.Quit? || e.Join?)
    ensures Inv(After(s, e))
  {
    NumTotal(s.status);
    if e.Join? {
      AllExited(s.workers);
    }
  }

  lemma {:induction false} AllExited(ws: seq<Worker>)
    requires forall k :: 0 <= k < |ws| ==> ws[k] == Exited
    ensures NumW(ws, IsExited) == |ws|
  {
    if ws != [] { AllExited(ws[1..]); }
  }

  /** Every step of every thread keeps the invariant. */
  lemma StepKeeps(s: State, e: Event)
    requires Inv(s) && Enabled(s, e)
    ensures Inv(After(s, e))
  {
    match e
    case Dispatch(w) => DispatchStep(s, w);
    case Sleep(w) => SleepStep(s, w);
    case Exit(w) => ExitStep(s, w);
    case Spurious(w) => SpuriousStep(s, w);
    case FetchOk(_) => FetchStep(s, e);
    case FetchHole(_) => FetchStep(s, e);
    case Pop => PopStep(s);
    case Commit => CommitStep(s);
    case Notify => NotifyStep(s);
    case _ => MainStep(s, e);
  }

  lemma {:induction false} AllQueued(n: nat, x: Status)
    ensures Num(seq(n, _ => Queued), x) == if x == Queued then n else 0
  {
    if n > 0 {
      AllQueued(n - 1, x);
      assert seq(n, _ => Queued)[1..] == seq(n - 1, _ => Queued);
    }
  }

  lemma {:induction false} AllChecking(n: nat, x: Kind)
    ensures NumW(seq(n, _ => Checking), x) == if x == IsChecking then n else 0
  {
    if n > 0 {
      AllChecking(n - 1, x);
      assert seq(n, _ => Checking)[1..] == seq(n - 1, _ => Checking);
    }
  }

  lemma InitHolds(n: nat, w: nat)
    requires w > 0
    ensures Inv(Init(n, w))
  {
    forall x ensures Num(Init(n, w).status, x) == if x == Queued then n else 0 { AllQueued(n, x); }
    forall x ensures NumW(Init(n, w).workers, x) == if x == IsChecking then w else 0 { AllChecking(w, x); }
  }

  /** A run: any interleaving of enabled steps. */
  ghost predicate Runs(s: State, es: seq<Event>)
    decreases |es|
  {
    es == [] || (Enabled(s, es[0]) && Runs(After(s, es[0]), es[1..]))
  }

  ghost function End(s: State, es: seq<Event>): State
    requires Runs(s, es)
    decreases |es|
  {
    if es == [] then s else End(After(s, es[0]), es[1..])
  }

  lemma {:induction false} RunKeeps(s: State, es: seq<Event>)
    requires Inv(s) && Runs(s, es)
    ensures var t := End(s, es);
      Inv(t) && |t.status| == |s.status| && |t.workers| == |s.workers|
    decreases |es|
  {
    if es != [] {
      StepKeeps(s, es[0]);
      RunKeeps(After(s, es[0]), es[1..]);
    }
  }

  /**
   * In every reachable state the dispatched entries are exactly the committed, the
   * holes, those in flight and those held, and what is in flight or held never
   * exceeds the workers.
   */
  lemma Reachable(n: nat, w: nat, es: seq<Event>)
    requires w > 0 && Runs(Init(n, w), es)
    ensures var s := End(Init(n, w), es);
      && Inv(s) && |s.status| == n && |s.workers| == w
      && s.nextDispatch == s.committed + s.holes + s.inFlight + Held(s) <= s.committed + s.holes + w
  {
    InitHolds(n, w);
    RunKeeps(Init(n, w), es);
    NumTotal(End(Init(n, w), es).status);
  }

  // ---- each entry's fate ----

  /** How far an entry has come. */
  function Stage(x: Status): nat {
    match x
    case Queued => 0
    case Flying => 1
    case Ready => 2
    case Popped => 3
    case Committed => 4
    case Hole => 4
  }

  /** An entry only moves forward, and a commit or a hole is for good. */
  lemma Forward(s: State, e: Event, i: nat)
    requires Inv(s) && Enabled(s, e) && i < |s.status|
    ensures var t := After(s, e);
      && |t.status| == |s.status|
      && (t.status[i] == s.status[i] || Stage(t.status[i]) > Stage(s.status[i]))
  {
  }

  // ---- progress ----

  /** Steps that only wait. */
  predicate Idle(e: Event) {
    e.Spurious? || e.Timeout?
  }

  function ItemsLeft(s: State): nat {
    4 * Num(s.status, Queued) + 3 * Num(s.status, Flying) + 2 * Num(s.status, Ready) + Num(s.status, Popped)
  }

  function MainLeft(s: State): nat {
    match s.main
    case Head => if s.Processed() < |s.status| then 4 else 2
    case Waiting => 3
    case Storing(_) => 0
    case Notifying => |s.workers| + 5
    case Joining => 1
    case Finished => 0
  }

  function ThreadsLeft(s: State): nat {
    2 * NumW(s.workers, IsChecking) + NumW(s.workers, IsAsleep) + 2 * NumW(s.workers, IsFetching) + MainLeft(s)
  }

  ghost predicate Shrinks(s: State, t: State) {
    || ItemsLeft(t) < ItemsLeft(s)
    || (ItemsLeft(t) == ItemsLeft(s) && ThreadsLeft(t) < ThreadsLeft(s))
  }

  /** Every step that is not mere waiting uses up something. */
  lemma StepShrinks(s: State, e: Event)
    requires Inv(s) && Enabled(s, e) && !Idle(e)
    ensures Shrinks(s, After(s, e))
  {
    match e
    case Dispatch(_) => ItemShrinks(s, e);
    case FetchOk(_) => ItemShrinks(s, e);
    case FetchHole(_) => ItemShrinks(s, e);
    case Pop => ItemShrinks(s, e);
    case Commit => ItemShrinks(s, e);
    case _ => ThreadShrinks(s, e);
  }

  lemma ItemShrinks(s: State, e: Event)
    requires Inv(s) && Enabled(s, e) && (e.Dispatch? || e.FetchOk? || e.FetchHole? || e.Pop? || e.Commit?)
    ensures ItemsLeft(After(s, e)) < ItemsLeft(s)
  {
    hide Num, NumW;
    match e
    case Dispatch(w) =>
      assert s.status[s.nextDispatch] == Queued;
      NumMove(s.status, s.nextDispatch, Flying);
    case FetchOk(w) => NumMove(s.status, s.workers[w].index, Ready);
    case FetchHole(w) => NumMove(s.status, s.workers[w].index, Hole);
    case Pop => NumMove(s.status, FirstReady(s.status), Popped);
    case Commit => NumMove(s.status, s.main.index, Committed);
  }

  lemma ThreadShrinks(s: State, e: Event)
    requires Inv(s) && Enabled(s, e) && !Idle(e)
    requires e.Sleep? || e.Exit? || e.Notify? || e.Enter? || e.Leave? || e.Quit? || e.Join?
    ensures ItemsLeft(After(s, e)) == ItemsLeft(s) && ThreadsLeft(After(s, e)) < ThreadsLeft(s)
  {
    hide Num, NumW;
    match e
    case Sleep(w) => NumWMove(s.workers, w, Asleep);
    case Exit(w) => NumWMove(s.workers, w, Exited);
    case Notify =>
      WakeCounts(s.workers);
      NumWTotal(s.workers);
    case _ =>
  }

  /**
   * No reachable state is stuck: until everything has joined, some thread can take
   * a step that is not mere waiting. Sleepers never outnumber held articles, so a
   * hole need not wake anyone.
   */
  lemma NeverStuck(s: State) returns (e: Event)
    requires Inv(s) && s.main != Finished
    ensures Enabled(s, e) && !Idle(e)
  {
    NumTotal(s.status);
    NumWTotal(s.workers);
    match s.main
    case Head => e := if s.Processed() < |s.status| then Enter else Quit;
    case Storing(_) => e := Commit;
    case Notifying => e := Notify;
    case Waiting =>
      if FirstReady(s.status) < |s.status| {
        e := Pop;
      } else if s.Processed() >= |s.status| {
        e := Leave;
      } else {
        NothingReady(s.status);
        e := WorkerCanStep(s);
      }
    case Joining =>
      if NumW(s.workers, IsExited) == |s.workers| {
        NumWAll(s.workers, IsExited);
        e := Join;
      } else {
        e := WorkerCanStep(s);
      }
  }

  lemma {:induction false} NothingReady(status: seq<Status>)
    requires FirstReady(status) == |status|
    ensures Num(status, Ready) == 0
  {
    if status != [] { NothingReady(status[1..]); }
  }

  /** With nothing held, no worker sleeps, so one that has not exited can move. */
  lemma WorkerCanStep(s: State) returns (e: Event)
    requires Inv(s) && Held(s) == 0 && s.main != Notifying
    requires NumW(s.workers, IsExited) < |s.workers| || s.Processed() < |s.status|
    ensures Enabled(s, e) && !Idle(e)
  {
    NumTotal(s.status);
    NumWTotal(s.workers);
    if NumW(s.workers, IsFetching) > 0 {
      var w := NumWFind(s.workers, IsFetching);
      e := FetchOk(w);
    } else {
      var w := NumWFind(s.workers, IsChecking);
      e := if s.nextDispatch >= |s.status| then Exit(w) else if WindowOpen(s) then Dispatch(w) else Sleep(w);
    }
  }

  /** From every state of the invariant a finite run without waiting reaches the end. */
  lemma {:induction false} Completes(s: State) returns (es: seq<Event>, t: State)
    requires Inv(s)
    ensures Leads(s, es, t) && Inv(t) && t.main == Finished
    decreases ItemsLeft(s), ThreadsLeft(s)
  {
    if s.main == Finished {
      es, t := [], s;
    } else {
      var e := NeverStuck(s);
      StepKeeps(s, e);
      StepShrinks(s, e);
      es, t := Completes(After(s, e));
      es := [e] + es;
    }
  }

  ghost predicate Leads(s: State, es: seq<Event>, t: State)
    decreases |es|
  {
    if es == [] then s == t
    else Enabled(s, es[0]) && !Idle(es[0]) && Leads(After(s, es[0]), es[1..], t)
  }

  /** At the end every worker has exited and every entry is exactly one commit or one hole. */
  lemma Finale(n: nat, w: nat, es: seq<Event>)
    requires w > 0 && Runs(Init(n, w), es) && End(Init(n, w), es).main == Finished
    ensures var s := End(Init(n, w), es);
      && |s.status| == n && |s.workers| == w && s.committed + s.holes == n
      && (forall k :: 0 <= k < w ==> s.workers[k] == Exited)
      && (forall i :: 0 <= i < n ==> s.status[i] == Committed || s.status[i] == Hole)
      && Distinct(s.log) && |s.log| == s.committed
      && forall i: nat :: i in s.log <==> i < n && s.status[i] == Committed
  {
    var s := End(Init(n, w), es);
    Reachable(n, w, es);
    AllSettled(s);
  }

  lemma AllSettled(s: State)
    requires Inv(s) && s.main == Finished
    ensures forall k :: 0 <= k < |s.workers| ==> s.workers[k] == Exited
    ensures forall i :: 0 <= i < |s.status| ==> s.status[i] == Committed || s.status[i] == Hole
  {
    NumTotal(s.status);
    NumWAll(s.workers, IsExited);
    forall k | 0 <= k < |s.workers|
      ensures s.workers[k] == Exited
    {
      assert KindOf(s.workers[k]) == IsExited;
    }
    NumPositive(s.status, Queued);
    NumPositive(s.status, Flying);
    NumPositive(s.status, Ready);
    NumPositive(s.status, Popped);
    forall i | 0 <= i < |s.status|
      ensures s.status[i] == Committed || s.status[i] == Hole
    {
      assert s.status[i] in s.status;
    }
  }
}
