/**
 * The feature graph: a depth-first post-order over everything the roots reach,
 * with cycle and axis checks, split afterwards into the two computation phases.
 */
module FeatureGraph {
  import opened Common

  datatype Axis = TimeSeries | CrossSection

  /** A node; a dependency of None is a null pointer. */
  datatype Node = Node(axis: Axis, deps: seq<Option<nat>>)

  type Graph = seq<Node>

  datatype Error = NullNode | Cycle | AxisViolation

  ghost predicate GraphValid(g: Graph) {
    forall n, k :: 0 <= n < |g| && 0 <= k < |g[n].deps| && g[n].deps[k].Some? ==> g[n].deps[k].value < |g|
  }

  ghost predicate RootsValid(g: Graph, roots: seq<Option<nat>>) {
    forall k :: 0 <= k < |roots| && roots[k].Some? ==> roots[k].value < |g|
  }

  predicate Edge(g: Graph, a: nat, b: nat) {
    a < |g| && Some(b) in g[a].deps
  }

  /** A walk along dependencies. */
  ghost predicate Walk(g: Graph, p: seq<nat>) {
    && p != []
    && (forall i :: 0 <= i < |p| ==> p[i] < |g|)
    && (forall i :: 0 < i < |p| ==> Edge(g, p[i - 1], p[i]))
  }

  ghost predicate Leads(g: Graph, roots: seq<Option<nat>>, p: seq<nat>, n: nat) {
    Walk(g, p) && Some(p[0]) in roots && p[|p| - 1] == n
  }

  ghost predicate Reachable(g: Graph, roots: seq<Option<nat>>, n: nat) {
    exists p :: Leads(g, roots, p, n)
  }

  /** A walk of at least one step from n back to itself. */
  ghost predicate Loops(g: Graph, p: seq<nat>, n: nat) {
    Walk(g, p) && |p| > 1 && p[0] == n && p[|p| - 1] == n
  }

  ghost predicate HasNull(refs: seq<Option<nat>>) {
    exists k :: 0 <= k < |refs| && refs[k].None?
  }

  ghost predicate NullReachable(g: Graph, roots: seq<Option<nat>>) {
    HasNull(roots) || exists n: nat :: n < |g| && Reachable(g, roots, n) && HasNull(g[n].deps)
  }

  ghost predicate CycleReachable(g: Graph, roots: seq<Option<nat>>) {
    exists n, p :: Reachable(g, roots, n) && Loops(g, p, n)
  }

  predicate Violates(g: Graph, a: nat, b: nat) {
    Edge(g, a, b) && b < |g| && g[a].axis == TimeSeries && g[b].axis == CrossSection
  }

  ghost predicate AxisReachable(g: Graph, roots: seq<Option<nat>>) {
    exists a, b :: Reachable(g, roots, a) && Violates(g, a, b)
  }

  ghost predicate Bad(g: Graph, roots: seq<Option<nat>>) {
    NullReachable(g, roots) || CycleReachable(g, roots) || AxisReachable(g, roots)
  }

  /** What each error reports. */
  ghost predicate Explains(g: Graph, roots: seq<Option<nat>>, e: Error) {
    match e
    case NullNode => NullReachable(g, roots)
    case Cycle => CycleReachable(g, roots)
    case AxisViolation => AxisReachable(g, roots)
  }

  // ---- orders ----

  /** Each node of the order once, every dependency present and earlier, no time series on a cross-section. */
  ghost predicate Topological(g: Graph, order: seq<nat>) {
    && Distinct(order)
    && (forall i :: 0 <= i < |order| ==> order[i] < |g|)
    && forall i :: 0 <= i < |order| ==> Settled(g, order, i)
  }

  ghost predicate Settled(g: Graph, order: seq<nat>, i: nat)
    requires i < |order| && order[i] < |g|
  {
    forall k :: 0 <= k < |g[order[i]].deps| ==>
      var d := g[order[i]].deps[k];
      d.Some? && d.value in order[..i] && !Violates(g, order[i], d.value)
  }

  lemma TopologicalSnoc(g: Graph, order: seq<nat>, n: nat)
    requires Topological(g, order) && n < |g| && n !in order
    requires forall k :: 0 <= k < |g[n].deps| ==>
      var d := g[n].deps[k]; d.Some? && d.value in order && !Violates(g, n, d.value)
    ensures Topological(g, order + [n])
  {
    var r := order + [n];
    DistinctSnoc(order, n);
    forall i | 0 <= i < |r|
      ensures r[i] < |g| && Settled(g, r, i)
    {
      assert r[..i] == order[..i];
      if i < |order| { assert Settled(g, order, i); }
      else { assert order[..i] == order; }
    }
  }

  // ---- a finished order rules everything bad out ----

  /** Along a walk that starts inside a topological order, positions strictly fall. */
  lemma {:induction false} WalkFalls(g: Graph, order: seq<nat>, p: seq<nat>, i: nat) returns (j: nat)
    requires Topological(g, order) && Walk(g, p) && i < |order| && order[i] == p[0]
    ensures j < |order| && order[j] == p[|p| - 1] && j <= i
    ensures |p| > 1 ==> j < i
    decreases |p|
  {
    if |p| == 1 {
      j := i;
    } else {
      assert Edge(g, p[0], p[1]);
      assert Settled(g, order, i);
      var k :| 0 <= k < |g[p[0]].deps| && g[p[0]].deps[k] == Some(p[1]);
      assert p[1] in order[..i];
      var q :| 0 <= q < i && order[..i][q] == p[1];
      assert forall x :: 0 < x < |p[1..]| ==> Edge(g, p[1..][x - 1], p[1..][x]) by {
        forall x | 0 < x < |p[1..]| ensures Edge(g, p[1..][x - 1], p[1..][x]) { assert Edge(g, p[x], p[x + 1]); }
      }
      j := WalkFalls(g, order, p[1..], q);
    }
  }

  lemma FinishedReaches(g: Graph, roots: seq<Option<nat>>, order: seq<nat>, n: nat)
    requires Topological(g, order) && Reachable(g, roots, n)
    requires forall k :: 0 <= k < |roots| && roots[k].Some? ==> roots[k].value in order
    ensures n in order
  {
    var p :| Leads(g, roots, p, n);
    var i :| 0 <= i < |order| && order[i] == p[0];
    var j := WalkFalls(g, order, p, i);
  }

  lemma FinishedNode(g: Graph, roots: seq<Option<nat>>, order: seq<nat>, n: nat)
    requires Topological(g, order) && Reachable(g, roots, n)
    requires forall k :: 0 <= k < |roots| && roots[k].Some? ==> roots[k].value in order
    ensures n < |g| && !HasNull(g[n].deps)
    ensures forall b: nat :: !Violates(g, n, b)
    ensures forall p :: !Loops(g, p, n)
  {
    FinishedReaches(g, roots, order, n);
    var i :| 0 <= i < |order| && order[i] == n;
    assert Settled(g, order, i);
    forall b: nat
      ensures !Violates(g, n, b)
    {
      if Edge(g, n, b) {
        var k :| 0 <= k < |g[n].deps| && g[n].deps[k] == Some(b);
      }
    }
    forall p
      ensures !Loops(g, p, n)
    {
      if Walk(g, p) && p[0] == n {
        var j := WalkFalls(g, order, p, i);
        assert |p| > 1 ==> order[j] != order[i];
      }
    }
  }

  lemma FinishedIsGood(g: Graph, roots: seq<Option<nat>>, order: seq<nat>)
    requires Topological(g, order)
    requires forall k :: 0 <= k < |roots| ==> roots[k].Some? && roots[k].value in order
    ensures !Bad(g, roots)
  {
    forall n: nat | Reachable(g, roots, n)
      ensures n < |g| && !HasNull(g[n].deps)
      ensures forall b: nat :: !Violates(g, n, b)
      ensures forall p :: !Loops(g, p, n)
    {
      FinishedNode(g, roots, order, n);
    }
  }

  /**
   * Two phases that compute the roots: time-series nodes, then cross-section nodes, each
   * node once and after every node it depends on.
   */
  ghost predicate Computes(g: Graph, roots: seq<Option<nat>>, ts: seq<nat>, cs: seq<nat>) {
    && Distinct(ts + cs)
    && (forall i :: 0 <= i < |ts| ==> ts[i] < |g| && g[ts[i]].axis == TimeSeries && DepsIn(g, ts[i], ts[..i]))
    && (forall i :: 0 <= i < |cs| ==> cs[i] < |g| && g[cs[i]].axis == CrossSection && DepsIn(g, cs[i], ts + cs[..i]))
    && forall k :: 0 <= k < |roots| ==> roots[k].Some? && roots[k].value in ts + cs
  }

  ghost predicate DepsIn(g: Graph, n: nat, done: seq<nat>)
    requires n < |g|
  {
    forall k :: 0 <= k < |g[n].deps| ==> g[n].deps[k].Some? && g[n].deps[k].value in done
  }

  /** Where such phases exist, nothing bad can be reached. */
  lemma ComputedIsGood(g: Graph, roots: seq<Option<nat>>, ts: seq<nat>, cs: seq<nat>)
    requires Computes(g, roots, ts, cs)
    ensures !Bad(g, roots)
  {
    var both := ts + cs;
    forall i | 0 <= i < |both|
      ensures both[i] < |g| && Settled(g, both, i)
    {
      if i < |ts| {
        assert both[..i] == ts[..i];
      } else {
        assert both[..i] == ts + cs[..i - |ts|];
      }
    }
    FinishedIsGood(g, roots, both);
  }

  // ---- the traversal ----

  lemma ReachDep(g: Graph, roots: seq<Option<nat>>, a: nat, b: nat)
    requires Reachable(g, roots, a) && Edge(g, a, b) && b < |g|
    ensures Reachable(g, roots, b)
  {
    var p :| Leads(g, roots, p, a);
    assert Leads(g, roots, p + [b], b);
  }

  lemma ReachRoot(g: Graph, roots: seq<Option<nat>>, n: nat)
    requires Some(n) in roots && n < |g|
    ensures Reachable(g, roots, n)
  {
    assert Leads(g, roots, [n], n);
  }

  /** The stack is the walk from a root to the node being visited. */
  ghost predicate StackValid(g: Graph, roots: seq<Option<nat>>, stack: seq<nat>) {
    && Distinct(stack)
    && (forall i :: 0 <= i < |stack| ==> stack[i] < |g| && Reachable(g, roots, stack[i]))
    && (forall i :: 0 < i < |stack| ==> Edge(g, stack[i - 1], stack[i]))
  }

  /** n is what the traversal looks at next: a root, or a dependency of the node on top. */
  ghost predicate Next(g: Graph, roots: seq<Option<nat>>, stack: seq<nat>, n: Option<nat>)
  {
    if stack == [] then n in roots
    else stack[|stack| - 1] < |g| && n in g[stack[|stack| - 1]].deps
  }

  lemma StackCycle(g: Graph, roots: seq<Option<nat>>, stack: seq<nat>, n: nat)
    requires StackValid(g, roots, stack) && n in stack && Edge(g, stack[|stack| - 1], n)
    ensures CycleReachable(g, roots)
  {
    var i :| 0 <= i < |stack| && stack[i] == n;
    var p := stack[i..] + [n];
    forall x | 0 < x < |p|
      ensures Edge(g, p[x - 1], p[x])
    {
      if x < |p| - 1 { assert Edge(g, stack[i + x - 1], stack[i + x]); }
    }
    assert Loops(g, p, n);
  }

  lemma StackBound(g: Graph, roots: seq<Option<nat>>, stack: seq<nat>, n: nat)
    requires StackValid(g, roots, stack) && n !in stack && n < |g|
    ensures |stack| < |g|
  {
    DistinctSnoc(stack, n);
    DistinctBound(stack + [n], Upto(|g|));
  }

  lemma StackPush(g: Graph, roots: seq<Option<nat>>, stack: seq<nat>, n: nat)
    requires StackValid(g, roots, stack) && n !in stack && n < |g| && Next(g, roots, stack, Some(n))
    ensures StackValid(g, roots, stack + [n]) && Reachable(g, roots, n)
  {
    DistinctSnoc(stack, n);
    if stack == [] {
      ReachRoot(g, roots, n);
    } else {
      ReachDep(g, roots, stack[|stack| - 1], n);
    }
  }

  class Visitor {
    const g: Graph
    ghost const roots: seq<Option<nat>>
    var done: seq<nat>
    var stack: seq<nat>

    ghost predicate Valid()
      reads this
    {
      && GraphValid(g) && RootsValid(g, roots)
      && Topological(g, done)
      && (forall x :: x in done ==> Reachable(g, roots, x))
      && StackValid(g, roots, stack)
      && (forall x :: x in stack ==> x !in done)
    }

    constructor (g: Graph, ghost roots: seq<Option<nat>>)
      requires GraphValid(g) && RootsValid(g, roots)
      ensures Valid() && this.g == g && this.roots == roots && done == [] && stack == []
    {
      this.g, this.roots := g, roots;
      done, stack := [], [];
    }

    /** Visits one node: its dependencies first, then itself. An error is final. */
    method Visit(n: Option<nat>) returns (err: Option<Error>)
      requires Valid() && Next(g, roots, stack, n)
      modifies this
      ensures err.Some? ==> Explains(g, roots, err.value)
      ensures err.None? ==>
        && Valid() && stack == old(stack) && old(done) <= done
        && n.Some? && n.value in done
      decreases |g| - |stack|, 1
    {
      if n.None? {
        if stack != [] {
          assert stack[|stack| - 1] < |g| && Reachable(g, roots, stack[|stack| - 1]);
        }
        return Some(NullNode);
      }
      var v := n.value;
      if v in done { return None; }
      if v in stack {
        StackCycle(g, roots, stack, v);
        return Some(Cycle);
      }
      NextInRange(v);
      StackBound(g, roots, stack, v);
      StackPush(g, roots, stack, v);
      err := VisitDeps(v);
    }

    lemma NextInRange(v: nat)
      requires GraphValid(g) && RootsValid(g, roots) && Next(g, roots, stack, Some(v))
      ensures v < |g|
    {
      if stack == [] {
        var k :| 0 <= k < |roots| && roots[k] == Some(v);
      } else {
        var top := stack[|stack| - 1];
        var k :| 0 <= k < |g[top].deps| && g[top].deps[k] == Some(v);
      }
    }

    /** The node is on the stack while its dependencies are visited. */
    method VisitDeps(v: nat) returns (err: Option<Error>)
      requires Valid() && v < |g| && v !in done && v !in stack && |stack| < |g|
      requires StackValid(g, roots, stack + [v]) && Reachable(g, roots, v)
      modifies this
      ensures err.Some? ==> Explains(g, roots, err.value)
      ensures err.None? ==>
        && Valid() && stack == old(stack) && old(done) <= done && v in done
      decreases |g| - |stack|, 0
    {
      ghost var below, done0 := stack, done;
      stack := stack + [v];
      var deps := g[v].deps;
      var k := 0;
      while k < |deps|
        invariant 0 <= k <= |deps|
        invariant Valid() && stack == below + [v] && done0 <= done
        invariant forall q :: 0 <= q < k ==> deps[q].Some? && deps[q].value in done && !Violates(g, v, deps[q].value)
      {
        var d := deps[k];
        if g[v].axis == TimeSeries {
          if d.None? { // reading the axis of a null node already fails
            assert HasNull(g[v].deps);
            return Some(NullNode);
          }
          if g[d.value].axis == CrossSection {
            assert Violates(g, v, d.value);
            return Some(AxisViolation);
          }
        }
        ghost var done1 := done;
        err := Visit(d);
        if err.Some? { return; }
        assert forall q :: 0 <= q < k ==> deps[q].value in done1;
        k := k + 1;
      }
      assert v !in done by { assert v in stack; }
      stack := stack[..|stack| - 1];
      assert stack == below;
      TopologicalSnoc(g, done, v);
      done := done + [v];
      err := None;
    }
  }

  datatype Outcome = Ordered(order: seq<nat>) | Rejected(error: Error)

  /**
   * The reachable nodes in an order where every dependency comes first. The
   * traversal is rejected exactly when a null node, a cycle, or a time-series node
   * depending on a cross-section node can be reached.
   */
  method ReachableTopoOrder(g: Graph, roots: seq<Option<nat>>) returns (r: Outcome)
    requires GraphValid(g) && RootsValid(g, roots)
    ensures r.Rejected? <==> Bad(g, roots)
    ensures r.Rejected? ==> Explains(g, roots, r.error)
    ensures r.Ordered? ==>
      && Topological(g, r.order)
      && forall n :: n in r.order <==> Reachable(g, roots, n)
  {
    var v := new Visitor(g, roots);
    var k := 0;
    while k < |roots|
      invariant 0 <= k <= |roots|
      invariant v.Valid() && v.stack == [] && fresh(v) && v.g == g && v.roots == roots
      invariant forall q :: 0 <= q < k ==> roots[q].Some? && roots[q].value in v.done
    {
      ghost var done0 := v.done;
      var err := v.Visit(roots[k]);
      if err.Some? {
        return Rejected(err.value);
      }
      assert forall q :: 0 <= q < k ==> roots[q].value in done0;
      k := k + 1;
    }
    FinishedIsGood(g, roots, v.done);
    forall n | Reachable(g, roots, n)
      ensures n in v.done
    {
      FinishedReaches(g, roots, v.done, n);
    }
    r := Ordered(v.done);
  }

  // ---- the two phases ----

  function OnAxis(g: Graph, order: seq<nat>, ax: Axis): seq<nat>
    requires forall i :: 0 <= i < |order| ==> order[i] < |g|
  {
    if order == [] then []
    else
      var n := |order| - 1;
      OnAxis(g, order[..n], ax) + if g[order[n]].axis == ax then [order[n]] else []
  }

  method CountAxis(g: Graph, order: seq<nat>, ax: Axis) returns (c: nat)
    requires forall i :: 0 <= i < |order| ==> order[i] < |g|
    ensures c == |OnAxis(g, order, ax)|
  {
    c := 0;
    var i := 0;
    while i < |order|
      invariant 0 <= i <= |order| && c == |OnAxis(g, order[..i], ax)|
    {
      assert order[..i + 1][..i] == order[..i];
      if g[order[i]].axis == ax { c := c + 1; }
      i := i + 1;
    }
    assert order[..i] == order;
  }

  lemma {:induction false} AxisPrefix(g: Graph, order: seq<nat>, ax: Axis, i: nat)
    requires i <= |order| && forall j :: 0 <= j < |order| ==> order[j] < |g|
    ensures OnAxis(g, order[..i], ax) <= OnAxis(g, order, ax)
    decreases |order|
  {
    if i < |order| {
      AxisPrefix(g, order[..|order| - 1], ax, i);
      assert order[..|order| - 1][..i] == order[..i];
    } else {
      assert order[..i] == order;
    }
  }

  /** Fills an array of exactly the counted length. */
  method FilterAxis(g: Graph, order: seq<nat>, ax: Axis) returns (r: seq<nat>)
    requires forall i :: 0 <= i < |order| ==> order[i] < |g|
    ensures r == OnAxis(g, order, ax)
  {
    var m := CountAxis(g, order, ax);
    var out := new nat[m](_ => 0);
    var i, w := 0, 0;
    while i < |order|
      invariant 0 <= i <= |order| && w <= m
      invariant out[..w] == OnAxis(g, order[..i], ax)
    {
      assert order[..i + 1][..i] == order[..i];
      AxisPrefix(g, order, ax, i + 1);
      if g[order[i]].axis == ax {
        out[w] := order[i];
        w := w + 1;
        assert out[..w] == out[..w - 1] + [order[i]];
      }
      i := i + 1;
    }
    assert order[..i] == order;
    assert w == m;
    r := out[..];
  }

  lemma {:induction false} AxisMembers(g: Graph, order: seq<nat>, ax: Axis)
    requires forall i :: 0 <= i < |order| ==> order[i] < |g|
    ensures forall x :: x in OnAxis(g, order, ax) <==> x in order && g[x].axis == ax
    ensures Distinct(order) ==> Distinct(OnAxis(g, order, ax))
  {
    if order != [] {
      var n := |order| - 1;
      AxisMembers(g, order[..n], ax);
      assert order == order[..n] + [order[n]];
      DistinctSnoc(order[..n], order[n]);
      DistinctSnoc(OnAxis(g, order[..n], ax), order[n]);
      assert OnAxis(g, order[..n], ax) + [] == OnAxis(g, order[..n], ax);
    }
  }

  /** Whatever stands before a node of one axis in the whole order stands before it in that axis's phase. */
  lemma {:induction false} AxisKeepsOrder(g: Graph, order: seq<nat>, ax: Axis, i: nat) returns (j: nat)
    requires (forall q :: 0 <= q < |order| ==> order[q] < |g|) && Distinct(order)
    requires i < |OnAxis(g, order, ax)|
    ensures j < |order| && order[j] == OnAxis(g, order, ax)[i]
    ensures forall x :: x in order[..j] && g[x].axis == ax ==> x in OnAxis(g, order, ax)[..i]
  {
    var n := |order| - 1;
    var phase := OnAxis(g, order[..n], ax);
    if i < |phase| {
      DistinctSnoc(order[..n], order[n]);
      assert order == order[..n] + [order[n]];
      j := AxisKeepsOrder(g, order[..n], ax, i);
      assert order[..n][..j] == order[..j];
      assert phase[..i] == OnAxis(g, order, ax)[..i];
    } else {
      j := n;
      AxisMembers(g, order[..n], ax);
      assert OnAxis(g, order, ax)[..i] == phase;
    }
  }

  /**
   * Running every time-series node in order and then every cross-section node in
   * order still computes each dependency before it is used, and computes exactly
   * the same nodes.
   */
  lemma TwoPhases(g: Graph, order: seq<nat>)
    requires Topological(g, order)
    ensures var both := OnAxis(g, order, TimeSeries) + OnAxis(g, order, CrossSection);
      Topological(g, both) && forall x :: x in both <==> x in order
  {
    var ts, cs := OnAxis(g, order, TimeSeries), OnAxis(g, order, CrossSection);
    var both := ts + cs;
    AxisMembers(g, order, TimeSeries);
    AxisMembers(g, order, CrossSection);
    forall i, j | 0 <= i < j < |both|
      ensures both[i] != both[j]
    {
      if i < |ts| <= j { assert both[i] in ts && both[j] in cs; }
    }
    forall i | 0 <= i < |both|
      ensures both[i] < |g|
    {
      assert both[i] in both;
    }
    forall i | 0 <= i < |both|
      ensures Settled(g, both, i)
    {
      PhaseSettled(g, order, i);
    }
  }

  lemma PhaseSettled(g: Graph, order: seq<nat>, i: nat)
    requires Topological(g, order)
    requires var both := OnAxis(g, order, TimeSeries) + OnAxis(g, order, CrossSection);
      i < |both| && both[i] < |g|
    ensures Settled(g, OnAxis(g, order, TimeSeries) + OnAxis(g, order, CrossSection), i)
  {
    var ts, cs := OnAxis(g, order, TimeSeries), OnAxis(g, order, CrossSection);
    var both := ts + cs;
    var ax := if i < |ts| then TimeSeries else CrossSection;
    var at := if i < |ts| then i else i - |ts|;
    AxisMembers(g, order, TimeSeries);
    var j := AxisKeepsOrder(g, order, ax, at);
    AxisMembers(g, order, ax);
    assert OnAxis(g, order, ax)[at] in OnAxis(g, order, ax);
    assert Settled(g, order, j);
    forall k | 0 <= k < |g[both[i]].deps|
      ensures var d := g[both[i]].deps[k]; d.Some? && d.value in both[..i] && !Violates(g, both[i], d.value)
    {
      var d := g[both[i]].deps[k];
      assert d.value in order[..j] && d.value in order;
      if g[d.value].axis == ax {
        assert d.value in OnAxis(g, order, ax)[..at];
        if i < |ts| { assert both[..i] == ts[..i]; } else { assert both[..i] == ts + cs[..at]; }
      } else {
        assert Edge(g, both[i], d.value);
        assert ax == CrossSection && d.value in ts;
        assert both[..i] == ts + cs[..at];
      }
    }
  }

  lemma PhasesOnAxis(g: Graph, order: seq<nat>)
    requires Topological(g, order)
    ensures var ts, cs := OnAxis(g, order, TimeSeries), OnAxis(g, order, CrossSection);
      && (forall i :: 0 <= i < |ts| ==> ts[i] < |g| && g[ts[i]].axis == TimeSeries)
      && forall i :: 0 <= i < |cs| ==> cs[i] < |g| && g[cs[i]].axis == CrossSection
  {
    AxisMembers(g, order, TimeSeries);
    AxisMembers(g, order, CrossSection);
    forall i | 0 <= i < |OnAxis(g, order, TimeSeries)|
      ensures OnAxis(g, order, TimeSeries)[i] in order
    {
      assert OnAxis(g, order, TimeSeries)[i] in OnAxis(g, order, TimeSeries);
    }
    forall i | 0 <= i < |OnAxis(g, order, CrossSection)|
      ensures OnAxis(g, order, CrossSection)[i] in order
    {
      assert OnAxis(g, order, CrossSection)[i] in OnAxis(g, order, CrossSection);
    }
  }

  lemma RootReached(g: Graph, roots: seq<Option<nat>>, k: nat)
    requires RootsValid(g, roots) && k < |roots| && roots[k].Some?
    ensures Reachable(g, roots, roots[k].value)
  {
    assert Leads(g, roots, [roots[k].value], roots[k].value);
  }

  lemma NoNullRoot(g: Graph, roots: seq<Option<nat>>, k: nat)
    requires !Bad(g, roots) && k < |roots|
    ensures roots[k].Some?
  {
  }

  /** The split order computes the roots. */
  lemma PhasesCompute(g: Graph, roots: seq<Option<nat>>, ts: seq<nat>, cs: seq<nat>)
    requires RootsValid(g, roots) && !Bad(g, roots) && Topological(g, ts + cs)
    requires forall n :: n in ts + cs <==> Reachable(g, roots, n)
    requires forall i :: 0 <= i < |ts| ==> ts[i] < |g| && g[ts[i]].axis == TimeSeries
    requires forall i :: 0 <= i < |cs| ==> cs[i] < |g| && g[cs[i]].axis == CrossSection
    ensures Computes(g, roots, ts, cs)
  {
    var both := ts + cs;
    forall i | 0 <= i < |ts|
      ensures DepsIn(g, ts[i], ts[..i])
    {
      assert Settled(g, both, i) && both[..i] == ts[..i];
    }
    forall i | 0 <= i < |cs|
      ensures DepsIn(g, cs[i], ts + cs[..i])
    {
      assert Settled(g, both, |ts| + i) && both[..|ts| + i] == ts + cs[..i];
    }
    hide Bad, Reachable;
    forall k | 0 <= k < |roots|
      ensures roots[k].Some? && roots[k].value in both
    {
      NoNullRoot(g, roots, k);
      RootReached(g, roots, k);
    }
  }

  /**
   * The registry: order everything, then split it by axis. It fails exactly when there
   * are no two phases that compute the roots.
   */
  method BuildPhases(g: Graph, roots: seq<Option<nat>>) returns (err: Option<Error>, ts: seq<nat>, cs: seq<nat>)
    requires GraphValid(g) && RootsValid(g, roots)
    ensures err.Some? <==> Bad(g, roots)
    ensures err.Some? ==> Explains(g, roots, err.value)
    ensures err.None? ==> Topological(g, ts + cs) && forall n :: n in ts + cs <==> Reachable(g, roots, n)
    ensures err.None? ==> Computes(g, roots, ts, cs)
    ensures err.Some? ==> forall a, b :: !Computes(g, roots, a, b)
  {
    hide Bad, Explains, Topological, Reachable, Computes, OnAxis;
    ts, cs := [], [];
    var r := ReachableTopoOrder(g, roots);
    match r
    case Rejected(e) =>
      err := Some(e);
      forall a, b
        ensures !Computes(g, roots, a, b)
      {
        if Computes(g, roots, a, b) {
          ComputedIsGood(g, roots, a, b);
        }
      }
    case Ordered(order) =>
      ts := FilterAxis(g, order, TimeSeries);
      cs := FilterAxis(g, order, CrossSection);
      TwoPhases(g, order);
      PhasesOnAxis(g, order);
      PhasesCompute(g, roots, ts, cs);
      err := None;
  }
}
