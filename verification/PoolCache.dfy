/**
 * The pool cache file: a fixed header, a table of sections, and the sections' raw
 * bytes, each starting at a multiple of eight. Mapping it back copies nothing: it
 * yields where each section lies.
 */
module PoolCache {
  import opened Common

  type Byte = b: int | 0 <= b < 256

  const MAGIC: nat := 0x315441444c4f4f50
  const VERSION: nat := 5
  const HEADER: nat := 32
  const ENTRY: nat := 16

  // ---- little-endian numbers ----

  function Little(n: nat, k: nat): (r: seq<Byte>)
    ensures |r| == k
  {
    if k == 0 then [] else [n % 256] + Little(n / 256, k - 1)
  }

  function Big(s: seq<Byte>): nat {
    if s == [] then 0 else s[0] + 256 * Big(s[1..])
  }

  function Pow256(k: nat): (r: nat)
    ensures r > 0
  {
    if k == 0 then 1 else 256 * Pow256(k - 1)
  }

  lemma {:induction false} LittleBack(n: nat, k: nat)
    requires n < Pow256(k)
    ensures Big(Little(n, k)) == n
  {
    if k > 0 {
      assert n / 256 < Pow256(k - 1);
      LittleBack(n / 256, k - 1);
      assert Little(n, k)[1..] == Little(n / 256, k - 1);
    }
  }

  // ---- the body ----

  /** A section as the visitor sees it: element width and raw bytes. */
  datatype Arr = Arr(width: nat, bytes: seq<Byte>) {
    predicate Valid() {
      width > 0 && |bytes| % width == 0
    }
  }

  datatype Place = Place(off: nat, len: nat)

  function Round8(n: nat): (r: nat)
    ensures n <= r < n + 8 && r % 8 == 0
  {
    (n + 7) / 8 * 8
  }

  function Pad8(s: seq<Byte>): (r: seq<Byte>)
    ensures |r| == Round8(|s|) && s <= r && forall i :: |s| <= i < |r| ==> r[i] == 0
  {
    s + seq(Round8(|s|) - |s|, _ => 0)
  }

  function Body(arrs: seq<Arr>): seq<Byte> {
    if arrs == [] then [] else Pad8(Body(arrs[..|arrs| - 1])) + arrs[|arrs| - 1].bytes
  }

  /** Where section k starts in the body. */
  function Start(arrs: seq<Arr>, k: nat): (r: nat)
    requires k < |arrs|
    ensures r % 8 == 0
  {
    Round8(|Body(arrs[..k])|)
  }

  function Places(arrs: seq<Arr>, at: nat): (r: seq<Place>) {
    seq(|arrs|, k requires 0 <= k < |arrs| => Place(at + Start(arrs, k), |arrs[k].bytes|))
  }

  lemma BodySnoc(before: seq<Arr>, arr: Arr)
    ensures Body(before + [arr]) == Pad8(Body(before)) + arr.bytes
  {
    assert (before + [arr])[..|before|] == before;
  }

  lemma {:induction false} BodyPrefix(arrs: seq<Arr>, k: nat)
    requires k <= |arrs|
    ensures Body(arrs[..k]) <= Body(arrs)
    decreases |arrs| - k
  {
    if k < |arrs| {
      BodyPrefix(arrs, k + 1);
      assert arrs[..k + 1][..k] == arrs[..k];
      assert Body(arrs[..k]) <= Pad8(Body(arrs[..k])) <= Body(arrs[..k + 1]);
    } else {
      assert arrs[..k] == arrs;
    }
  }

  /** Section k lies in the body, at its place. */
  lemma BodyAt(arrs: seq<Arr>, k: nat)
    requires k < |arrs|
    ensures Start(arrs, k) + |arrs[k].bytes| == |Body(arrs[..k + 1])| <= |Body(arrs)|
    ensures Body(arrs)[Start(arrs, k)..Start(arrs, k) + |arrs[k].bytes|] == arrs[k].bytes
  {
    assert arrs[..k + 1][..k] == arrs[..k];
    var b := Body(arrs[..k + 1]);
    assert b == Pad8(Body(arrs[..k])) + arrs[k].bytes;
    BodyPrefix(arrs, k + 1);
    assert b[Start(arrs, k)..] == arrs[k].bytes;
    hide Body;
    Inside(b, Body(arrs), Start(arrs, k));
  }

  lemma Inside(a: seq<Byte>, b: seq<Byte>, i: nat)
    requires a <= b && i <= |a|
    ensures b[i..|a|] == a[i..]
  {
  }

  /** Sections start at multiples of eight, one behind the other, inside the body. */
  lemma PlacesApart(arrs: seq<Arr>, at: nat, j: nat, k: nat)
    requires j < k < |arrs| && at % 8 == 0
    ensures var p, q := Places(arrs, at)[j], Places(arrs, at)[k];
      p.off % 8 == 0 && q.off % 8 == 0 && p.off + p.len <= q.off && q.off + q.len <= at + |Body(arrs)|
  {
    hide Body, Start;
    StartApart(arrs, j, k);
    BodyAt(arrs, k);
  }

  lemma StartApart(arrs: seq<Arr>, j: nat, k: nat)
    requires j < k < |arrs|
    ensures Start(arrs, j) + |arrs[j].bytes| <= Start(arrs, k)
  {
    BodyAt(arrs, j);
    BodyPrefix(arrs[..k], j + 1);
    assert arrs[..k][..j + 1] == arrs[..j + 1];
  }

  // ---- the visitor ----

  /** The visitor's three uses on one layout: adding up sizes, writing, mapping. */
  class CacheVisitor {
    var totalBytes: nat
    var out: seq<Byte>
    var sections: seq<Place>
    var cursor: nat

    constructor ()
      ensures totalBytes == 0 && out == [] && sections == [] && cursor == 0
    {
      totalBytes, out, sections, cursor := 0, [], [], 0;
    }

    method SizeSection(arr: Arr, ghost before: seq<Arr>)
      requires totalBytes == |Body(before)|
      modifies this`totalBytes
      ensures totalBytes == |Body(before + [arr])|
    {
      BodySnoc(before, arr);
      hide Body;
      ghost var n := totalBytes;
      while totalBytes % 8 != 0
        invariant n <= totalBytes <= Round8(n)
        decreases Round8(n) - totalBytes
      {
        totalBytes := totalBytes + 1;
      }
      totalBytes := totalBytes + |arr.bytes|;
    }

    method WriteSection(arr: Arr, ghost before: seq<Arr>)
      requires out == Body(before) && sections == Places(before, 0)
      modifies this`out, this`sections
      ensures out == Body(before + [arr]) && sections == Places(before + [arr], 0)
    {
      ghost var n := |out|;
      BodySnoc(before, arr);
      hide Body;
      while |out| % 8 != 0
        invariant n <= |out| <= Round8(n) && Body(before) <= out <= Pad8(Body(before)) && sections == old(sections)
        decreases Round8(n) - |out|
      {
        assert out + [0] <= Pad8(Body(before));
        out := out + [0];
      }
      assert out == Pad8(Body(before));
      var off := |out|;
      PlacesNext(before, arr);
      out := out + arr.bytes;
      sections := sections + [Place(off, |arr.bytes|)];
    }

    /** The next section's place, from the table. */
    method MapSection(table: seq<Place>) returns (p: Place)
      requires cursor < |table|
      modifies this`cursor
      ensures p == table[old(cursor)] && cursor == old(cursor) + 1
    {
      p := table[cursor];
      cursor := cursor + 1;
    }
  }

  lemma PlacesNext(before: seq<Arr>, arr: Arr)
    ensures Places(before + [arr], 0) == Places(before, 0) + [Place(Round8(|Body(before)|), |arr.bytes|)]
  {
    var arrs := before + [arr];
    forall k | 0 <= k < |arrs|
      ensures Places(arrs, 0)[k] == (Places(before, 0) + [Place(Round8(|Body(before)|), |arr.bytes|)])[k]
    {
      if k < |before| {
        assert arrs[..k] == before[..k];
      } else {
        assert arrs[..k] == before;
      }
    }
  }

  /** Adding up sizes gives the length of what writing produces. */
  method SizeOf(arrs: seq<Arr>) returns (n: nat)
    ensures n == |Body(arrs)|
  {
    var v := new CacheVisitor();
    var k := 0;
    while k < |arrs|
      invariant 0 <= k <= |arrs| && v.totalBytes == |Body(arrs[..k])|
    {
      assert arrs[..k + 1] == arrs[..k] + [arrs[k]];
      v.SizeSection(arrs[k], arrs[..k]);
      k := k + 1;
    }
    assert arrs[..k] == arrs;
    n := v.totalBytes;
  }

  // ---- the file ----

  function TableBytes(places: seq<Place>): (r: seq<Byte>)
    ensures |r| == ENTRY * |places|
  {
    if places == [] then []
    else
      var n := |places| - 1;
      TableBytes(places[..n]) + Little(places[n].off, 8) + Little(places[n].len, 8)
  }

  function Header(n: nat, key: nat): (r: seq<Byte>)
    ensures |r| == HEADER
  {
    Little(MAGIC, 8) + Little(VERSION, 4) + Little(n, 4) + Little(key, 8) + Little(0, 8)
  }

  function FileOf(arrs: seq<Arr>, key: nat): seq<Byte> {
    Header(|arrs|, key) + TableBytes(Places(arrs, HEADER + ENTRY * |arrs|)) + Body(arrs)
  }

  /** Writes the sections, then moves their places behind the header and the table. */
  method Dump(arrs: seq<Arr>, key: nat) returns (file: seq<Byte>)
    ensures file == FileOf(arrs, key)
  {
    hide Body, Little, Places;
    var v := new CacheVisitor();
    var k := 0;
    NoArrs();
    assert arrs[..0] == [];
    while k < |arrs|
      invariant 0 <= k <= |arrs| && v.out == Body(arrs[..k]) && v.sections == Places(arrs[..k], 0)
    {
      assert arrs[..k + 1] == arrs[..k] + [arrs[k]];
      v.WriteSection(arrs[k], arrs[..k]);
      k := k + 1;
    }
    assert arrs[..k] == arrs;
    PlacesLength(arrs, 0);
    var sectionBase := HEADER + |v.sections| * ENTRY;
    PlacesLength(arrs, sectionBase);
    var sections: seq<Place> := [];
    k := 0;
    while k < |v.sections|
      invariant 0 <= k <= |v.sections| && v.sections == Places(arrs, 0) && v.out == Body(arrs)
      invariant k <= |Places(arrs, sectionBase)| && sections == Places(arrs, sectionBase)[..k]
    {
      PlaceMoves(arrs, sectionBase, k);
      sections := sections + [Place(v.sections[k].off + sectionBase, v.sections[k].len)];
      k := k + 1;
    }
    assert sections == Places(arrs, sectionBase);
    file := Header(|sections|, key) + TableBytes(sections) + v.out;
  }

  lemma NoArrs()
    ensures Body([]) == [] && Places([], 0) == []
  {
  }

  lemma PlacesLength(arrs: seq<Arr>, at: nat)
    ensures |Places(arrs, at)| == |arrs|
  {
  }

  lemma PlaceMoves(arrs: seq<Arr>, at: nat, k: nat)
    requires k < |arrs|
    ensures |Places(arrs, at)| == |arrs| == |Places(arrs, 0)|
    ensures Places(arrs, at)[k] == Place(Places(arrs, 0)[k].off + at, Places(arrs, 0)[k].len)
  {
  }

  /** Reading the cache: not usable, a table that does not fit the layout, or a place for every section. */
  datatype Mapped = Miss | Mismatch | Views(places: seq<Place>)

  function Number(file: seq<Byte>, at: nat, k: nat): nat
    requires at + k <= |file|
  {
    Big(file[at..at + k])
  }

  function EntryAt(file: seq<Byte>, k: nat): Place
    requires HEADER + ENTRY * (k + 1) <= |file|
  {
    Place(Number(file, HEADER + ENTRY * k, 8), Number(file, HEADER + ENTRY * k + 8, 8))
  }

  /** What mapping a file under a key yields. */
  ghost predicate MapsTo(file: seq<Byte>, key: nat, n: nat, r: Mapped) {
    && (r.Miss? <==>
      || |file| < HEADER || Number(file, 0, 8) != MAGIC || Number(file, 8, 4) != VERSION || Number(file, 16, 8) != key
      || |file| < HEADER + ENTRY * Number(file, 12, 4))
    && (r.Mismatch? ==> Number(file, 12, 4) != n)
    && (r.Views? ==> Number(file, 12, 4) == n == |r.places| && forall k :: 0 <= k < n ==> r.places[k] == EntryAt(file, k))
  }

  /** Maps a cache file onto a layout of n sections. */
  method TryMap(file: seq<Byte>, key: nat, n: nat) returns (r: Mapped)
    ensures MapsTo(file, key, n, r)
  {
    if |file| < HEADER {
      return Miss;
    }
    if Number(file, 0, 8) != MAGIC || Number(file, 8, 4) != VERSION || Number(file, 16, 8) != key {
      return Miss;
    }
    var count := Number(file, 12, 4);
    if |file| < HEADER + count * ENTRY {
      return Miss;
    }
    if count != n {
      return Mismatch;
    }
    hide Big;
    var v := new CacheVisitor();
    var table := seq(n, k requires 0 <= k < n => EntryAt(file, k));
    var places: seq<Place> := [];
    while |places| < n
      invariant |places| <= n && v.cursor == |places| && places == table[..|places|]
    {
      var p := v.MapSection(table);
      places := places + [p];
    }
    return Views(places);
  }

  // ---- round trip ----

  lemma LittleIn(a: seq<Byte>, n: nat, k: nat, b: seq<Byte>)
    requires n < Pow256(k)
    ensures Number(a + Little(n, k) + b, |a|, k) == n
  {
    assert (a + Little(n, k) + b)[|a|..|a| + k] == Little(n, k);
    LittleBack(n, k);
  }

  lemma Powers()
    ensures Pow256(4) == 0x1_0000_0000 && Pow256(8) == 0x1_0000_0000_0000_0000
  {
    assert Pow256(1) == 256 && Pow256(2) == 0x1_0000 && Pow256(3) == 0x100_0000 && Pow256(4) == 0x1_0000_0000;
    assert Pow256(5) == 256 * Pow256(4) && Pow256(6) == 256 * Pow256(5) && Pow256(7) == 256 * Pow256(6);
  }

  lemma HeaderReads(n: nat, key: nat, rest: seq<Byte>)
    requires n < Pow256(4) && key < Pow256(8)
    ensures var file := Header(n, key) + rest;
      && Number(file, 0, 8) == MAGIC && Number(file, 8, 4) == VERSION
      && Number(file, 12, 4) == n && Number(file, 16, 8) == key
  {
    Powers();
    hide Little, Big, Pow256;
    var m, v, c, k, z := Little(MAGIC, 8), Little(VERSION, 4), Little(n, 4), Little(key, 8), Little(0, 8);
    var file := Header(n, key) + rest;
    assert file == [] + m + (v + c + k + z + rest);
    LittleIn([], MAGIC, 8, v + c + k + z + rest);
    assert file == m + v + (c + k + z + rest);
    LittleIn(m, VERSION, 4, c + k + z + rest);
    assert file == (m + v) + c + (k + z + rest);
    LittleIn(m + v, n, 4, k + z + rest);
    assert file == (m + v + c) + k + (z + rest);
    LittleIn(m + v + c, key, 8, z + rest);
  }

  lemma {:induction false} TableReads(head: seq<Byte>, places: seq<Place>, rest: seq<Byte>, k: nat)
    requires |head| == HEADER && k < |places| && places[k].off < Pow256(8) && places[k].len < Pow256(8)
    ensures EntryAt(head + TableBytes(places) + rest, k) == places[k]
    decreases |places|
  {
    var n := |places| - 1;
    hide Little, Big, Pow256;
    var a, b := Little(places[n].off, 8), Little(places[n].len, 8);
    var low := TableBytes(places[..n]);
    var file := head + TableBytes(places) + rest;
    if k < n {
      assert file == head + low + (a + b + rest);
      TableReads(head, places[..n], a + b + rest, k);
    } else {
      assert file == (head + low) + a + (b + rest);
      LittleIn(head + low, places[n].off, 8, b + rest);
      assert file == (head + low + a) + b + rest;
      LittleIn(head + low + a, places[n].len, 8, rest);
    }
  }

  lemma FileLength(arrs: seq<Arr>, key: nat)
    ensures |FileOf(arrs, key)| == HEADER + ENTRY * |arrs| + |Body(arrs)|
  {
  }

  /** A dumped file mapped under another key is a miss. */
  lemma StaleMisses(arrs: seq<Arr>, key: nat, other: nat, r: Mapped)
    requires |arrs| < Pow256(4) && key < Pow256(8) && MapsTo(FileOf(arrs, key), other, |arrs|, r) && other != key
    ensures r.Miss?
  {
    hide Body, Little, Big, Pow256, Header;
    var table := TableBytes(Places(arrs, HEADER + ENTRY * |arrs|));
    assert FileOf(arrs, key) == Header(|arrs|, key) + (table + Body(arrs));
    HeaderReads(|arrs|, key, table + Body(arrs));
  }

  /** Mapping what was dumped under its own key is no miss and no mismatch, whatever the number of sections. */
  lemma MapsBack(arrs: seq<Arr>, key: nat, r: Mapped)
    requires |arrs| < Pow256(4) && key < Pow256(8) && MapsTo(FileOf(arrs, key), key, |arrs|, r)
    ensures r.Views? && |r.places| == |arrs|
  {
    hide Body, Little, Big, Pow256, Header;
    var places := Places(arrs, HEADER + ENTRY * |arrs|);
    assert FileOf(arrs, key) == Header(|arrs|, key) + (TableBytes(places) + Body(arrs));
    HeaderReads(|arrs|, key, TableBytes(places) + Body(arrs));
    FileLength(arrs, key);
  }

  /**
   * Mapping what was dumped restores every section: each place is a multiple of eight,
   * inside the file, and holds that section's bytes.
   */
  lemma MapRestores(arrs: seq<Arr>, key: nat, r: Mapped, k: nat)
    requires |arrs| < Pow256(4) && key < Pow256(8) && |FileOf(arrs, key)| < Pow256(8)
    requires MapsTo(FileOf(arrs, key), key, |arrs|, r) && k < |arrs|
    ensures r.Views? && |r.places| == |arrs|
    ensures var p := r.places[k];
      && p.off % 8 == 0 && p.off + p.len <= |FileOf(arrs, key)|
      && FileOf(arrs, key)[p.off..p.off + p.len] == arrs[k].bytes
  {
    hide Body, Little, Big, Pow256, Header, Start;
    var at := HEADER + ENTRY * |arrs|;
    var places, head := Places(arrs, at), Header(|arrs|, key);
    assert FileOf(arrs, key) == head + (TableBytes(places) + Body(arrs));
    HeaderReads(|arrs|, key, TableBytes(places) + Body(arrs));
    FileLength(arrs, key);
    BodyAt(arrs, k);
    assert places[k] == Place(at + Start(arrs, k), |arrs[k].bytes|);
    hide Places;
    TableReads(head, places, Body(arrs), k);
    Behind(head + TableBytes(places), Body(arrs), Start(arrs, k), |arrs[k].bytes|);
  }

  lemma Behind(a: seq<Byte>, b: seq<Byte>, off: nat, len: nat)
    requires off + len <= |b|
    ensures (a + b)[|a| + off..|a| + off + len] == b[off..off + len]
  {
  }
}
