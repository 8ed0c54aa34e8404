/** A format of index lines: fields spelled out between braces, as an object's text is. */
module AccountFormat {
  import opened Common
  import opened JsonLines
  import opened AccountDisk
  import opened AccountHistory

  const INNER := {'0', '1', '.', '+', '-'}

  function Ones(n: nat): (s: string)
    ensures |s| == n && forall i :: 0 <= i < n ==> s[i] == '1'
  {
    seq(n, _ => '1')
  }

  /** Characters by their numbers. */
  function Spelled(s: string): string {
    if s == "" then "" else Ones(s[0] as nat) + "0" + Spelled(s[1..])
  }

  function Counted(n: int): string {
    (if n < 0 then "-" else "+") + Ones(Abs(n))
  }

  function Fields(e: Entry): string {
    Spelled(e.id) + "." + (Counted(e.datetime) + "." + (Spelled(e.title) + "." + (Spelled(e.dir) + "." + Counted(e.assets))))
  }

  function Line(e: Entry): string {
    "{" + Fields(e) + "}"
  }

  /** The same up to the first c, and the same after it. */
  lemma SplitAt(a: string, x: string, b: string, y: string, c: char)
    requires c !in a && c !in b && a + [c] + x == b + [c] + y
    ensures a == b && x == y
  {
    var s := a + [c] + x;
    assert s[|a|] == c && forall i :: 0 <= i < |a| ==> s[i] == a[i];
    assert s == b + [c] + y;
    assert s[|b|] == c && forall i :: 0 <= i < |b| ==> s[i] == b[i];
    assert |a| == |b|;
    assert a == s[..|a|] && x == s[|a| + 1..] && b == s[..|a|] && y == s[|a| + 1..];
  }

  lemma {:induction false} SpelledOnly(s: string)
    ensures forall c :: c in Spelled(s) ==> c in {'0', '1'}
  {
    if s != "" { SpelledOnly(s[1..]); }
  }

  lemma CountedOnly(n: int)
    ensures forall c :: c in Counted(n) ==> c in {'1', '+', '-'}
  {
  }

  lemma {:induction false} SpelledBack(s: string, t: string)
    requires Spelled(s) == Spelled(t)
    ensures s == t
  {
    if s != "" && t != "" {
      SplitAt(Ones(s[0] as nat), Spelled(s[1..]), Ones(t[0] as nat), Spelled(t[1..]), '0');
      SpelledBack(s[1..], t[1..]);
      assert s == [s[0]] + s[1..] && t == [t[0]] + t[1..];
    }
  }

  lemma CountedBack(m: int, n: int)
    requires Counted(m) == Counted(n)
    ensures m == n
  {
    assert Counted(m)[0] == Counted(n)[0] && |Counted(m)| == |Counted(n)|;
  }

  lemma FieldsBack(a: Entry, b: Entry)
    requires Fields(a) == Fields(b)
    ensures a == b
  {
    SpelledOnly(a.id);
    SpelledOnly(b.id);
    SpelledOnly(a.title);
    SpelledOnly(b.title);
    SpelledOnly(a.dir);
    SpelledOnly(b.dir);
    hide Spelled, Counted;
    var a3, b3 := Spelled(a.dir) + "." + Counted(a.assets), Spelled(b.dir) + "." + Counted(b.assets);
    var a2, b2 := Spelled(a.title) + "." + a3, Spelled(b.title) + "." + b3;
    var a1, b1 := Counted(a.datetime) + "." + a2, Counted(b.datetime) + "." + b2;
    CountedOnly(a.datetime);
    CountedOnly(b.datetime);
    SplitAt(Spelled(a.id), a1, Spelled(b.id), b1, '.');
    SplitAt(Counted(a.datetime), a2, Counted(b.datetime), b2, '.');
    SplitAt(Spelled(a.title), a3, Spelled(b.title), b3, '.');
    SplitAt(Spelled(a.dir), Counted(a.assets), Spelled(b.dir), Counted(b.assets), '.');
    SpelledBack(a.id, b.id);
    CountedBack(a.datetime, b.datetime);
    SpelledBack(a.title, b.title);
    SpelledBack(a.dir, b.dir);
    CountedBack(a.assets, b.assets);
  }

  lemma FieldsOnly(e: Entry)
    ensures forall c :: c in Fields(e) ==> c in INNER
  {
    SpelledOnly(e.id);
    SpelledOnly(e.title);
    SpelledOnly(e.dir);
    CountedOnly(e.datetime);
    CountedOnly(e.assets);
    hide Spelled, Counted;
  }

  lemma LineBack(a: Entry, b: Entry)
    requires Line(a) == Line(b)
    ensures a == b
  {
    hide Fields;
    assert Line(a)[1..|Line(a)| - 1] == Fields(a) && Line(b)[1..|Line(b)| - 1] == Fields(b);
    FieldsBack(a, b);
  }

  /** The opening brace comes first and never again. */
  lemma OneOpening(e: Entry)
    ensures Unbroken(Line(e)) && Line(e)[0] == '{' && forall i :: 0 < i < |Line(e)| ==> Line(e)[i] != '{'
  {
    FieldsOnly(e);
    hide Fields;
    forall i | 0 < i < |Line(e)|
      ensures Line(e)[i] != '{' && Line(e)[i] != NEWLINE
    {
      if i < |Line(e)| - 1 { assert Line(e)[i] in Fields(e); }
    }
  }

  ghost function Parsed(s: string): (r: Option<Entry>)
    ensures if r.Some? then Line(r.value) == s else forall e :: Line(e) != s
  {
    if exists e :: Line(e) == s then
      var e :| Line(e) == s;
      Some(e)
    else None
  }

  function Named(e: Entry): string {
    "n" + e.id
  }

  lemma ParsedBack(e: Entry)
    ensures Parsed(Line(e)) == Some(e)
  {
    LineBack(Parsed(Line(e)).value, e);
  }

  lemma NamedBack(a: Entry, b: Entry)
    requires Named(a) == Named(b)
    ensures a.id == b.id
  {
    assert Named(a)[1..] == a.id && Named(b)[1..] == b.id;
  }

  /** The beginning of a line and another line are together no line. */
  lemma JoinedNone(a: Entry, b: Entry, n: nat)
    requires 0 < n <= |Line(a)|
    ensures Parsed(Line(a)[..n] + Line(b)) == None
  {
    var s := Line(a)[..n] + Line(b);
    OneOpening(b);
    hide Line;
    forall e
      ensures Line(e) != s
    {
      OneOpening(e);
      assert s[n] == '{';
    }
  }

  /** There is such a format, and joined lines never read. */
  lemma FormatExists()
    ensures var f := Format(Line, Parsed, Named); f.Valid() && NeverJoins(f)
  {
    var f := Format(Line, Parsed, Named);
    forall e
      ensures f.dec(f.enc(e)) == Some(e) && Unbroken(f.enc(e)) && f.enc(e) != ""
    {
      ParsedBack(e);
      OneOpening(e);
    }
    forall a, b | f.name(a) == f.name(b)
      ensures a.id == b.id
    {
      NamedBack(a, b);
    }
    forall a, b, n: nat | 0 < n <= |f.enc(a)|
      ensures f.dec(f.enc(a)[..n] + f.enc(b)) == None
    {
      JoinedNone(a, b, n);
    }
  }
}
