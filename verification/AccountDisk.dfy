/** One account's article store on disk: an index and a queue, a line per entry, and article directories. */
module AccountDisk {
  import opened Common
  import opened JsonLines
  import opened StableSort

  datatype Entry = Entry(id: string, datetime: int, title: string, dir: string, assets: nat)

  datatype Content = Draft(files: map<string, string>) | Doc(text: string, assets: map<string, string>)

  datatype Disk = Disk(index: string, queue: string, dirs: map<string, Content>, staging: Option<Content>)

  /** How entries become lines and directory names: a line reads back as its entry, and different posts get different names. */
  datatype Format = Format(enc: Entry -> string, dec: string -> Option<Entry>, name: Entry -> string) {
    ghost predicate Valid() {
      && (forall e :: dec(enc(e)) == Some(e))
      && (forall e :: Unbroken(enc(e)) && enc(e) != "")
      && (forall a, b :: name(a) == name(b) ==> a.id == b.id)
      && (forall e: Entry, d: string, n: nat :: name(e.(dir := d, assets := n)) == name(e))
      && forall e :: name(e) != ""
    }
  }

  function Texts(f: Format, es: seq<Entry>): (r: seq<string>)
    ensures |r| == |es| && forall i :: 0 <= i < |r| ==> r[i] == f.enc(es[i])
  {
    seq(|es|, i requires 0 <= i < |es| => f.enc(es[i]))
  }

  /** A file of lines. */
  function Jsonl(f: Format, es: seq<Entry>): string {
    if es == [] then "" else Jsonl(f, es[..|es| - 1]) + f.enc(es[|es| - 1]) + [NEWLINE]
  }

  /** A file written line by line reads as exactly those lines. */
  lemma {:induction false} JsonlReads(f: Format, es: seq<Entry>)
    requires f.Valid()
    ensures Lines(Jsonl(f, es), 0) == Texts(f, es) && Whole(Jsonl(f, es))
  {
    if es == [] {
      NoLines("");
    } else {
      var n := |es| - 1;
      JsonlReads(f, es[..n]);
      hide Lines, Whole, Unbroken;
      AppendReads(Jsonl(f, es[..n]), f.enc(es[n]));
      assert Tail(Jsonl(f, es[..n])) + f.enc(es[n]) == f.enc(es[n]);
      assert Texts(f, es) == Texts(f, es[..n]) + [f.enc(es[n])];
    }
  }

  ghost function Ids(es: seq<Entry>): set<string> {
    set i | 0 <= i < |es| :: es[i].id
  }

  ghost predicate OncePerId(es: seq<Entry>) {
    forall i, j :: 0 <= i < j < |es| ==> es[i].id != es[j].id
  }

  /** Indexed posts with a directory have all of it, under their own name. */
  ghost predicate Complete(f: Format, dirs: map<string, Content>, es: seq<Entry>) {
    forall i :: 0 <= i < |es| && es[i].dir != "" ==>
      es[i].dir == f.name(es[i]) && es[i].dir in dirs && dirs[es[i].dir].Doc?
  }

  /** The disk reads as index es and queue p. */
  ghost predicate Holds(f: Format, d: Disk, es: seq<Entry>, p: seq<Entry>) {
    && Lines(d.index, 0) == Texts(f, es) && Lines(d.queue, 0) == Texts(f, p)
    && OncePerId(es) && OncePerId(p) && Complete(f, d.dirs, es)
  }

  // ---- queue arithmetic ----

  function NotIn(es: seq<Entry>, ids: set<string>): (r: seq<Entry>)
    ensures forall i :: 0 <= i < |r| ==> r[i] in es && r[i].id !in ids
  {
    if es == [] then []
    else
      var n := |es| - 1;
      NotIn(es[..n], ids) + if es[n].id in ids then [] else [es[n]]
  }

  /** The first entry of each post. */
  function FirstOnly(es: seq<Entry>): (r: seq<Entry>) {
    if es == [] then []
    else
      var n := |es| - 1;
      var r := FirstOnly(es[..n]);
      r + if exists i :: 0 <= i < |r| && r[i].id == es[n].id then [] else [es[n]]
  }

  lemma IdsSnoc(es: seq<Entry>, e: Entry)
    ensures Ids(es + [e]) == Ids(es) + {e.id}
  {
    var more := es + [e];
    forall x
      ensures x in Ids(more) <==> x in Ids(es) + {e.id}
    {
      if x in Ids(es) {
        var i :| 0 <= i < |es| && es[i].id == x;
        assert more[i].id == x;
      }
      assert more[|es|].id == e.id;
    }
  }

  lemma {:induction false} IdsJoin(a: seq<Entry>, b: seq<Entry>)
    ensures Ids(a + b) == Ids(a) + Ids(b)
  {
    if b != [] {
      var n := |b| - 1;
      IdsJoin(a, b[..n]);
      IdsSnoc(a + b[..n], b[n]);
      IdsSnoc(b[..n], b[n]);
      assert a + b[..n] + [b[n]] == a + b && b[..n] + [b[n]] == b;
    } else {
      assert a + b == a;
    }
  }

  lemma {:induction false} NotInIds(es: seq<Entry>, ids: set<string>)
    ensures Ids(NotIn(es, ids)) == Ids(es) - ids
  {
    if es != [] {
      var n := |es| - 1;
      NotInIds(es[..n], ids);
      IdsSnoc(es[..n], es[n]);
      var r := NotIn(es[..n], ids);
      IdsSnoc(r, es[n]);
      assert r + [] == r && es[..n] + [es[n]] == es;
    }
  }

  lemma {:induction false} NotInOnce(es: seq<Entry>, ids: set<string>)
    requires OncePerId(es)
    ensures OncePerId(NotIn(es, ids))
  {
    if es != [] {
      var n := |es| - 1;
      NotInOnce(es[..n], ids);
      forall i | 0 <= i < |NotIn(es[..n], ids)|
        ensures NotIn(es[..n], ids)[i].id != es[n].id
      {
        var k :| 0 <= k < n && es[k] == NotIn(es[..n], ids)[i];
      }
    }
  }

  lemma {:induction false} NotInTwice(es: seq<Entry>, a: set<string>, b: set<string>)
    ensures NotIn(NotIn(es, a), b) == NotIn(es, a + b)
  {
    if es != [] {
      var n := |es| - 1;
      NotInTwice(es[..n], a, b);
      var r := NotIn(es[..n], a);
      if es[n].id !in a {
        assert (r + [es[n]])[..|r|] == r;
      } else {
        assert r + [] == r;
      }
    }
  }

  lemma {:induction false} FirstOnlyIds(es: seq<Entry>)
    ensures Ids(FirstOnly(es)) == Ids(es) && OncePerId(FirstOnly(es))
  {
    if es != [] {
      var n := |es| - 1;
      FirstOnlyIds(es[..n]);
      IdsSnoc(es[..n], es[n]);
      var r := FirstOnly(es[..n]);
      IdsSnoc(r, es[n]);
      assert r + [] == r && es[..n] + [es[n]] == es;
    }
  }

  lemma OnceSame(a: seq<Entry>, b: seq<Entry>)
    requires multiset(a) == multiset(b) && OncePerId(a)
    ensures OncePerId(b) && Ids(b) == Ids(a)
  {
    Sizes(a, b);
    forall x
      ensures x in Ids(a) <==> x in Ids(b)
    {
      if i :| 0 <= i < |a| && a[i].id == x {
        assert a[i] in b;
      }
      if i :| 0 <= i < |b| && b[i].id == x {
        assert b[i] in a;
      }
    }
    assert Distinct(a);
    DistinctPermutation(a, b);
    forall i, j | 0 <= i < j < |b|
      ensures b[i].id != b[j].id
    {
      assert b[i] in a && b[j] in a;
      var p :| 0 <= p < |a| && a[p] == b[i];
      var q :| 0 <= q < |a| && a[q] == b[j];
    }
  }
}
