/**
 * Event chains per asset: pushed one by one, sorted stably by visible row, flattened
 * into one arena with offsets, and found again by asset.
 */
module Events {
  import opened Common
  import opened StableSort
  import opened PoolCache

  const OFFSETS: nat := 0x1_0000_0000

  /** What was pushed for asset a, in order. */
  function PushedFor<Ev>(log: seq<(nat, Ev)>, a: nat): seq<Ev> {
    if log == [] then []
    else
      var n := |log| - 1;
      PushedFor(log[..n], a) + if log[n].0 == a then [log[n].1] else []
  }

  /** A push counts for its own asset alone, behind all earlier ones. */
  lemma PushedNext<Ev>(log: seq<(nat, Ev)>, a: nat, e: Ev, b: nat)
    ensures PushedFor<Ev>([], b) == []
    ensures PushedFor(log + [(a, e)], b) == if a == b then PushedFor(log, b) + [e] else PushedFor(log, b)
  {
    assert (log + [(a, e)])[..|log|] == log;
  }

  /** Every push is found with its own asset, and with no other: together the assets hold them all. */
  lemma {:induction false} PushedAll<Ev>(log: seq<(nat, Ev)>, k: nat)
    requires k < |log|
    ensures log[k].1 in PushedFor(log, log[k].0)
  {
    var n := |log| - 1;
    if k < n {
      PushedAll(log[..n], k);
    }
  }

  function Total<Ev>(chains: seq<seq<Ev>>): (n: nat)
    ensures n == |Flat(chains)|
  {
    if chains == [] then 0 else Total(chains[..|chains| - 1]) + |chains[|chains| - 1]|
  }

  function Flat<Ev>(chains: seq<seq<Ev>>): seq<Ev> {
    if chains == [] then [] else Flat(chains[..|chains| - 1]) + chains[|chains| - 1]
  }

  /** The offsets of a flattened table of chains. */
  function Offsets<Ev>(chains: seq<seq<Ev>>): (r: seq<nat>) {
    seq(|chains| + 1, a requires 0 <= a <= |chains| => Total(chains[..a]))
  }

  lemma {:induction false} FlatPrefix<Ev>(chains: seq<seq<Ev>>, a: nat)
    requires a <= |chains|
    ensures Flat(chains[..a]) <= Flat(chains)
    decreases |chains| - a
  {
    if a < |chains| {
      FlatPrefix(chains, a + 1);
      assert chains[..a + 1][..a] == chains[..a];
    } else {
      assert chains[..a] == chains;
    }
  }

  /** Between its offsets the arena holds exactly an asset's chain. */
  lemma ChainAt<Ev>(chains: seq<seq<Ev>>, a: nat)
    requires a < |chains|
    ensures var lo, hi := Offsets(chains)[a], Offsets(chains)[a + 1];
      lo <= hi <= |Flat(chains)| && Flat(chains)[lo..hi] == chains[a]
  {
    assert chains[..a + 1][..a] == chains[..a];
    FlatPrefix(chains, a + 1);
    var low := Flat(chains[..a]);
    assert Flat(chains[..a + 1]) == low + chains[a];
    assert Flat(chains)[..|low + chains[a]|] == low + chains[a];
  }

  /** Between asset a's offsets the arena holds this chain. */
  ghost predicate Cut<Ev>(offsets: seq<nat>, events: seq<Ev>, a: nat, chain: seq<Ev>) {
    a + 1 < |offsets| && offsets[a] <= offsets[a + 1] <= |events| && events[offsets[a]..offsets[a + 1]] == chain
  }

  class EventStore<Ev> {
    const v: Ev -> int
    var chains: seq<seq<Ev>>
    var offsets: seq<nat>
    var events: seq<Ev>
    ghost var log: seq<(nat, Ev)>
    ghost var sorted: bool

    /** The chains hold what was pushed, in order of pushing or of visible row. */
    ghost predicate Building()
      reads this
    {
      forall a :: 0 <= a < |chains| ==>
        chains[a] == if sorted then SortBy(PushedFor(log, a), v) else PushedFor(log, a)
    }

    /** The flattened form of n assets' chains. */
    ghost predicate Flattened(n: nat)
      reads this
    {
      && |offsets| == n + 1 && offsets[0] == 0
      && forall a :: 0 <= a < n ==> Cut(offsets, events, a, SortBy(PushedFor(log, a), v))
    }

    constructor (v: Ev -> int)
      ensures this.v == v && chains == [] && log == [] && !sorted
    {
      this.v, chains, offsets, events, log, sorted := v, [], [], [], [], false;
    }

    method ResizeChains(n: nat)
      modifies this
      ensures |chains| == n && log == [] && !sorted && Building()
    {
      chains, log, sorted := seq(n, _ => []), [], false;
    }

    method PushChain(a: nat, e: Ev)
      requires Building() && !sorted && a < |chains|
      modifies this`chains, this`log
      ensures Building() && chains == old(chains)[a := old(chains[a]) + [e]] && log == old(log) + [(a, e)]
    {
      chains := chains[a := chains[a] + [e]];
      ghost var before := log;
      log := log + [(a, e)];
      assert log[..|before|] == before;
    }

    method SortChains()
      requires Building() && !sorted
      modifies this`chains, this`sorted
      ensures Building() && sorted && |chains| == |old(chains)|
    {
      var a := 0;
      while a < |chains|
        invariant 0 <= a <= |chains| == |old(chains)|
        invariant forall b :: 0 <= b < a ==> chains[b] == SortBy(PushedFor(log, b), v)
        invariant forall b :: a <= b < |chains| ==> chains[b] == PushedFor(log, b)
      {
        chains := chains[a := SortBy(chains[a], v)];
        a := a + 1;
      }
      sorted := true;
    }

    /** Flattens the chains; offsets are 32 bits wide. */
    method Finalize()
      requires Building() && sorted && Total(chains) < OFFSETS
      modifies this`chains, this`offsets, this`events
      ensures Flattened(|old(chains)|) && chains == []
      ensures offsets == Offsets(old(chains)) && events == Flat(old(chains))
    {
      hide SortBy, PushedFor, Total, Flat, Offsets;
      offsets := OffsetsOf(chains);
      events := Arena(chains);
      OffsetsFacts(chains);
      forall b | 0 <= b < |chains|
        ensures Cut(offsets, events, b, chains[b])
      {
        ChainAt(chains, b);
      }
      chains := [];
    }

    /** The events of one asset. */
    function At(a: nat): (r: seq<Ev>)
      requires a + 1 < |offsets| && offsets[a] <= offsets[a + 1] <= |events|
      reads this
      ensures Flattened(|offsets| - 1) ==> r == SortBy(PushedFor(log, a), v)
    {
      events[offsets[a]..offsets[a + 1]]
    }
  }

  lemma OffsetsFacts<Ev>(chains: seq<seq<Ev>>)
    ensures |Offsets(chains)| == |chains| + 1 && Offsets(chains)[0] == 0
  {
  }

  lemma TotalNext<Ev>(chains: seq<seq<Ev>>, a: nat)
    ensures Total(chains[..0]) == 0
    ensures a < |chains| ==> Total(chains[..a + 1]) == Total(chains[..a]) + |chains[a]|
  {
    if a < |chains| {
      assert chains[..a + 1][..a] == chains[..a];
    }
  }

  method OffsetsOf<Ev>(chains: seq<seq<Ev>>) returns (offsets: seq<nat>)
    requires Total(chains) < OFFSETS
    ensures offsets == Offsets(chains)
  {
    hide Total, Flat;
    var total, a := 0, 0;
    TotalNext(chains, 0);
    offsets := [0];
    while a < |chains|
      invariant 0 <= a <= |chains| && total == Total(chains[..a])
      invariant |offsets| == a + 1 && forall b :: 0 <= b <= a ==> offsets[b] == Total(chains[..b])
    {
      TotalNext(chains, a);
      total := total + |chains[a]|;
      Fits(chains, a + 1);
      offsets := offsets + [total % OFFSETS];
      a := a + 1;
    }
  }

  lemma Fits<Ev>(chains: seq<seq<Ev>>, a: nat)
    requires a <= |chains|
    ensures Total(chains[..a]) <= Total(chains)
  {
    FlatPrefix(chains, a);
  }

  /** The arena, chain by chain. */
  method Arena<Ev>(chains: seq<seq<Ev>>) returns (r: seq<Ev>)
    ensures r == Flat(chains)
  {
    r := [];
    var a := 0;
    while a < |chains|
      invariant 0 <= a <= |chains| && r == Flat(chains[..a])
    {
      assert chains[..a + 1][..a] == chains[..a];
      r := r + chains[a];
      a := a + 1;
    }
    assert chains[..a] == chains;
  }
}
