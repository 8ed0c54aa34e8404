/** Event stores through the pool cache: built, dumped, mapped and read again. */
module EventCache {
  import opened Common
  import opened StableSort
  import opened PoolCache
  import opened Events

  /** Fixed-width records as raw bytes. */
  datatype Wire<!T> = Wire(width: nat, enc: T -> seq<Byte>, dec: seq<Byte> -> T)

  ghost predicate Sound<T(!new)>(wire: Wire<T>) {
    wire.width > 0 && forall x :: |wire.enc(x)| == wire.width && wire.dec(wire.enc(x)) == x
  }

  /** Bytes as they are. */
  lemma BytesSound()
    ensures Sound<Byte>(Wire(1, (b: Byte) => [b], (s: seq<Byte>) => if s == [] then 0 else s[0]))
  {
  }

  function Encode<T>(wire: Wire<T>, xs: seq<T>): seq<Byte> {
    if xs == [] then [] else Encode(wire, xs[..|xs| - 1]) + wire.enc(xs[|xs| - 1])
  }

  function Chunk(s: seq<Byte>, w: nat, i: nat): seq<Byte>
    requires i * w + w <= |s|
  {
    s[i * w..i * w + w]
  }

  lemma {:induction false} ChunkAt<T(!new)>(wire: Wire<T>, xs: seq<T>, i: nat)
    requires Sound(wire) && i < |xs|
    ensures |Encode(wire, xs)| == |xs| * wire.width && i * wire.width + wire.width <= |xs| * wire.width
    ensures Chunk(Encode(wire, xs), wire.width, i) == wire.enc(xs[i])
    decreases |xs|
  {
    hide Chunk, Sound;
    var n := |xs| - 1;
    var low, last := Encode(wire, xs[..n]), wire.enc(xs[n]);
    Width(wire, xs[n]);
    EncodeLength(wire, xs[..n]);
    Within(i, n, wire.width);
    if i < n {
      ChunkAt(wire, xs[..n], i);
      ChunkLow(low, last, wire.width, i);
    } else {
      ChunkLast(low, last, wire.width, n);
    }
  }

  lemma Width<T(!new)>(wire: Wire<T>, x: T)
    requires Sound(wire)
    ensures wire.width > 0 && |wire.enc(x)| == wire.width && wire.dec(wire.enc(x)) == x
  {
  }

  lemma ChunkLow(low: seq<Byte>, last: seq<Byte>, w: nat, i: nat)
    requires i * w + w <= |low|
    ensures Chunk(low + last, w, i) == Chunk(low, w, i)
  {
  }

  lemma ChunkLast(low: seq<Byte>, last: seq<Byte>, w: nat, n: nat)
    requires |low| == n * w && |last| == w
    ensures Chunk(low + last, w, n) == last
  {
  }

  lemma Within(i: nat, n: nat, w: nat)
    requires i <= n
    ensures n * w + w == (n + 1) * w && i * w <= n * w && (i < n ==> i * w + w <= n * w)
  {
    assert (n - i) * w >= 0;
    assert n * w == i * w + (n - i) * w;
    if i < n {
      assert (n - i - 1) * w >= 0;
      assert (n - i) * w == (n - i - 1) * w + w;
    }
  }

  lemma {:induction false} EncodeLength<T(!new)>(wire: Wire<T>, xs: seq<T>)
    requires Sound(wire)
    ensures |Encode(wire, xs)| == |xs| * wire.width
  {
    if xs != [] {
      EncodeLength(wire, xs[..|xs| - 1]);
      Within(0, |xs| - 1, wire.width);
    }
  }

  /** Offsets are 32-bit numbers. */
  function Word(n: nat): seq<Byte> {
    Little(n, 4)
  }

  function Words(offsets: seq<nat>): seq<Byte> {
    if offsets == [] then [] else Words(offsets[..|offsets| - 1]) + Word(offsets[|offsets| - 1])
  }

  lemma {:induction false} WordAt(offsets: seq<nat>, i: nat)
    requires i < |offsets|
    ensures |Words(offsets)| == 4 * |offsets| && Words(offsets)[4 * i..4 * i + 4] == Word(offsets[i])
    decreases |offsets|
  {
    var n := |offsets| - 1;
    var low := Words(offsets[..n]);
    if i < n {
      WordAt(offsets[..n], i);
      assert (low + Word(offsets[n]))[4 * i..4 * i + 4] == low[4 * i..4 * i + 4];
    } else {
      if n > 0 { WordAt(offsets[..n], 0); }
      assert (low + Word(offsets[n]))[|low|..] == Word(offsets[n]);
    }
  }

  /** The two sections of an event store. */
  function SectionsOf<T>(wire: Wire<T>, offsets: seq<nat>, events: seq<T>): seq<Arr> {
    [Arr(4, Words(offsets)), Arr(wire.width, Encode(wire, events))]
  }

  /** Records lo to hi. */
  function Records<T>(wire: Wire<T>, e: seq<Byte>, lo: nat, hi: nat): (r: seq<T>)
    requires lo <= hi && hi * wire.width <= |e|
  {
    seq(hi - lo, j requires 0 <= j < hi - lo =>
      Within(lo + j, hi, wire.width);
      wire.dec(Chunk(e, wire.width, lo + j)))
  }

  /** Reading one asset's events out of the two mapped sections. */
  function ReadChain<T>(wire: Wire<T>, o: seq<Byte>, e: seq<Byte>, a: nat): Option<seq<T>> {
    if 4 * a + 8 > |o| then None
    else
      var lo, hi := Number(o, 4 * a, 4), Number(o, 4 * a + 4, 4);
      if lo > hi || hi * wire.width > |e| then None else Some(Records(wire, e, lo, hi))
  }

  lemma NumberAt(offsets: seq<nat>, i: nat)
    requires i < |offsets| && offsets[i] < OFFSETS
    ensures |Words(offsets)| == 4 * |offsets| && Number(Words(offsets), 4 * i, 4) == offsets[i]
  {
    hide Words;
    Powers();
    WordAt(offsets, i);
    LittleBack(offsets[i], 4);
  }

  lemma RecordsBack<T(!new)>(wire: Wire<T>, events: seq<T>, lo: nat, hi: nat)
    requires Sound(wire) && lo <= hi <= |events|
    ensures hi * wire.width <= |Encode(wire, events)| && Records(wire, Encode(wire, events), lo, hi) == events[lo..hi]
  {
    hide Encode, Sound, Chunk;
    EncodeLength(wire, events);
    Within(hi, |events|, wire.width);
    forall j | 0 <= j < hi - lo
      ensures Records(wire, Encode(wire, events), lo, hi)[j] == events[lo..hi][j]
    {
      ChunkAt(wire, events, lo + j);
      Width(wire, events[lo + j]);
    }
  }

  lemma ReadsBack<T(!new)>(wire: Wire<T>, offsets: seq<nat>, events: seq<T>, a: nat, chain: seq<T>)
    requires Sound(wire) && Cut(offsets, events, a, chain) && |events| < OFFSETS
    ensures ReadChain(wire, Words(offsets), Encode(wire, events), a) == Some(chain)
  {
    hide Words, Encode, Sound, Records, Number;
    NumberAt(offsets, a);
    NumberAt(offsets, a + 1);
    RecordsBack(wire, events, offsets[a], offsets[a + 1]);
  }

  lemma Middle(before: seq<Arr>, x: Arr, y: Arr, after: seq<Arr>)
    ensures var arrs := before + [x, y] + after;
      |arrs| == |before| + 2 + |after| && arrs[|before|] == x && arrs[|before| + 1] == y
  {
  }

  /**
   * A store that was built, dumped among other sections and mapped again returns for
   * each asset the stable sort of exactly the events pushed for it.
   */
  lemma BuiltDumpedMapped<T(!new)>(wire: Wire<T>, v: T -> int, log: seq<(nat, T)>, offsets: seq<nat>, events: seq<T>, n: nat,
                                   before: seq<Arr>, after: seq<Arr>, key: nat, r: Mapped, a: nat)
    requires Sound(wire) && a < n && |events| < OFFSETS
    requires |offsets| == n + 1 && forall b :: 0 <= b < n ==> Cut(offsets, events, b, SortBy(PushedFor(log, b), v))
    requires var arrs := before + SectionsOf(wire, offsets, events) + after;
      && |arrs| < Pow256(4) && key < Pow256(8) && |FileOf(arrs, key)| < Pow256(8)
      && MapsTo(FileOf(arrs, key), key, |arrs|, r)
    ensures r.Views? && |r.places| == |before| + 2 + |after|
    ensures var file := FileOf(before + SectionsOf(wire, offsets, events) + after, key);
      var p, q := r.places[|before|], r.places[|before| + 1];
      && p.off + p.len <= |file| && q.off + q.len <= |file|
      && ReadChain(wire, file[p.off..p.off + p.len], file[q.off..q.off + q.len], a) == Some(SortBy(PushedFor(log, a), v))
  {
    hide FileOf, MapsTo, SortBy, PushedFor, ReadChain, Words, Encode, Pow256, Cut, Sound;
    var x, y := Arr(4, Words(offsets)), Arr(wire.width, Encode(wire, events));
    var arrs := before + [x, y] + after;
    Middle(before, x, y, after);
    MapRestores(arrs, key, r, |before|);
    MapRestores(arrs, key, r, |before| + 1);
    ReadsBack(wire, offsets, events, a, SortBy(PushedFor(log, a), v));
  }
}
