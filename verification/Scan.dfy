/**
 * Finding posts page by page. While a run reads the list it stays as it is; between runs
 * it gains posts at the front, or has some moved there, and may lose any.
 */
module Scan {
  import opened Common

  type Pid = string

  const STOP_PAGES: nat := 2
  const ANCHOR_WINDOW: nat := 30

  /** What survives a kill: the posts known, the deep scan's anchor and page, and whether it ever finished. */
  datatype Progress = Progress(seen: set<Pid>, anchor: Option<Pid>, page: Option<nat>, done: bool)

  function PageTotal(count: nat, size: nat): (r: nat) {
    var d := MaxInt(size, 1);
    if count % d == 0 then count / d else count / d + 1
  }

  /** Just enough pages for all. */
  lemma PagesBound(count: nat, size: nat)
    requires size > 0
    ensures var r := PageTotal(count, size); count <= r * size && (count == r == 0 || (r - 1) * size < count)
  {
    var q, m := count / size, count % size;
    assert count == q * size + m;
    assert (q + 1) * size == q * size + size;
    assert (q - 1) * size == q * size - size;
  }

  /** Page number p, counted from 1. */
  function PageOf(list: seq<Pid>, size: nat, p: nat): seq<Pid>
    requires p >= 1
  {
    list[MinInt((p - 1) * size, |list|)..MinInt(p * size, |list|)]
  }

  ghost predicate AllSeen(list: seq<Pid>, seen: set<Pid>, from: int) {
    forall j :: 0 <= j < |list| && from <= j ==> list[j] in seen
  }

  /** The anchor and everything older on the list is known. */
  ghost predicate AnchorOk(list: seq<Pid>, p: Progress) {
    p.anchor.Some? ==> forall i :: 0 <= i < |list| && list[i] == p.anchor.value ==> AllSeen(list, p.seen, i)
  }

  /** The known posts on the list are its older part. */
  ghost predicate Suffix(list: seq<Pid>, seen: set<Pid>, k: nat) {
    k <= |list| && AllSeen(list, seen, k) && forall j :: 0 <= j < k ==> list[j] !in seen
  }

  ghost predicate IsSuffix(list: seq<Pid>, seen: set<Pid>) {
    exists k: nat :: Suffix(list, seen, k)
  }

  // ---- the list between runs ----

  function Without(list: seq<Pid>, gone: set<Pid>): (r: seq<Pid>)
    ensures forall x :: x in r <==> x in list && x !in gone
  {
    if list == [] then []
    else
      var n := |list| - 1;
      Without(list[..n], gone) + if list[n] in gone then [] else [list[n]]
  }

  /** Posts gone, and others put in front; a post moved to the front is both. */
  ghost predicate Grown(list: seq<Pid>, next: seq<Pid>, front: seq<Pid>, gone: set<Pid>) {
    Distinct(next) && next == front + Without(list, gone)
  }

  /** The list grows at the front, and the anchor does not move there. */
  ghost predicate Evolves(list: seq<Pid>, next: seq<Pid>, anchor: Option<Pid>) {
    exists front, gone :: Grown(list, next, front, gone) && (anchor.Some? ==> anchor.value !in front)
  }

  /** Only posts never known before come in front. */
  ghost predicate NewInFront(list: seq<Pid>, next: seq<Pid>, seen: set<Pid>) {
    exists front, gone :: Grown(list, next, front, gone) && forall x :: x in front ==> x !in seen
  }

  lemma {:induction false} WithoutJoin(a: seq<Pid>, b: seq<Pid>, gone: set<Pid>)
    ensures Without(a + b, gone) == Without(a, gone) + Without(b, gone)
    decreases |b|
  {
    if b != [] {
      var n := |b| - 1;
      WithoutJoin(a, b[..n], gone);
      assert (a + b)[..|a| + n] == a + b[..n];
    } else {
      assert a + b == a;
    }
  }

  lemma WithoutSplit(list: seq<Pid>, k: nat, gone: set<Pid>)
    requires k <= |list|
    ensures Without(list, gone) == Without(list[..k], gone) + Without(list[k..], gone)
  {
    assert list == list[..k] + list[k..];
    WithoutJoin(list[..k], list[k..], gone);
  }

  lemma DistinctTail(a: seq<Pid>, b: seq<Pid>)
    requires Distinct(a + b)
    ensures Distinct(b)
  {
    forall i, j | 0 <= i < j < |b|
      ensures b[i] != b[j]
    {
      assert (a + b)[|a| + i] == b[i] && (a + b)[|a| + j] == b[j];
    }
  }

  /** The anchor's promise survives whatever happens to the list between runs. */
  lemma AnchorEvolves(list: seq<Pid>, next: seq<Pid>, p: Progress)
    requires Evolves(list, next, p.anchor) && AnchorOk(list, p)
    ensures AnchorOk(next, p)
  {
    var front, gone :| Grown(list, next, front, gone) && (p.anchor.Some? ==> p.anchor.value !in front);
    DistinctTail(front, Without(list, gone));
    forall j | 0 <= j < |front|
      ensures next[j] in front
    {
      assert next[j] == front[j];
    }
    if p.anchor.Some? {
      forall i | 0 <= i < |next| && next[i] == p.anchor.value
        ensures AllSeen(next, p.seen, i)
      {
        assert i >= |front|;
        var a := p.anchor.value;
        assert next[i] == Without(list, gone)[i - |front|];
        assert a in list;
        var h :| 0 <= h < |list| && list[h] == a;
        FromAnchor(list, gone, h, i - |front|);
        forall j | i <= j < |next|
          ensures next[j] in p.seen
        {
          assert next[j] == Without(list, gone)[j - |front|];
          assert next[j] in list[h..];
        }
      }
    }
  }

  /** In a list without repeats, what follows an element of its second part is in that part. */
  lemma OnlyPlace(low: seq<Pid>, high: seq<Pid>, i: nat)
    requires i < |low + high| && Distinct(low + high) && (low + high)[i] in high
    ensures forall j :: i <= j < |low + high| ==> (low + high)[j] in high
  {
    var w := low + high;
    var q :| 0 <= q < |high| && high[q] == w[i];
    assert w[|low| + q] == w[i];
    assert i == |low| + q;
    forall j | i <= j < |w|
      ensures w[j] in high
    {
      assert w[j] == high[j - |low|];
    }
  }

  /** What follows a post in the remaining list followed it before. */
  lemma FromAnchor(list: seq<Pid>, gone: set<Pid>, h: nat, i: nat)
    requires h < |list| && i < |Without(list, gone)| && Without(list, gone)[i] == list[h]
    requires Distinct(Without(list, gone))
    ensures forall j :: i <= j < |Without(list, gone)| ==> Without(list, gone)[j] in list[h..]
  {
    var w := Without(list, gone);
    WithoutSplit(list, h, gone);
    var low, high := Without(list[..h], gone), Without(list[h..], gone);
    assert list[h] in w;
    assert list[h] == list[h..][0] && list[h] in high;
    hide Without;
    OnlyPlace(low, high, i);
    assert forall x :: x in high ==> x in list[h..];
  }

  lemma SuffixParts(a: seq<Pid>, b: seq<Pid>, seen: set<Pid>)
    requires forall x :: x in a ==> x !in seen
    requires forall x :: x in b ==> x in seen
    ensures Suffix(a + b, seen, |a|)
  {
    forall j | 0 <= j < |a|
      ensures (a + b)[j] !in seen
    {
      assert (a + b)[j] == a[j];
    }
    forall j | |a| <= j < |a + b|
      ensures (a + b)[j] in seen
    {
      assert (a + b)[j] == b[j - |a|];
    }
  }

  /** If the known posts were the older part of the list, they still are. */
  lemma SuffixEvolves(list: seq<Pid>, next: seq<Pid>, seen: set<Pid>)
    requires NewInFront(list, next, seen) && IsSuffix(list, seen)
    ensures IsSuffix(next, seen)
  {
    var k: nat :| Suffix(list, seen, k);
    var front, gone :| Grown(list, next, front, gone) && forall x :: x in front ==> x !in seen;
    WithoutSplit(list, k, gone);
    var low, high := Without(list[..k], gone), Without(list[k..], gone);
    assert next == (front + low) + high;
    SuffixParts(front + low, high, seen);
  }
}
