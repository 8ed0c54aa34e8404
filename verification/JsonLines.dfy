/**
 * Line files read and appended by a program that may be killed in mid-write: a last
 * line without its newline is dropped when reading.
 */
module JsonLines {

  const NEWLINE := '\n'

  predicate Unbroken(s: string) {
    NEWLINE !in s
  }

  /** The first newline from i on, or the end. */
  function LineEnd(t: string, i: nat): (e: nat)
    requires i <= |t|
    ensures i <= e <= |t| && Unbroken(t[i..e]) && (e < |t| ==> t[e] == NEWLINE)
    decreases |t| - i
  {
    if i == |t| || t[i] == NEWLINE then i
    else
      var e := LineEnd(t, i + 1);
      assert t[i..e] == [t[i]] + t[i + 1..e];
      e
  }

  /** The complete lines from i on, empty ones left out. */
  function Lines(t: string, i: nat): seq<string>
    requires i <= |t|
    decreases |t| - i
  {
    var e := LineEnd(t, i);
    if e == |t| then []
    else (if e == i then [] else [t[i..e]]) + Lines(t, e + 1)
  }

  method ReadLines(t: string) returns (lines: seq<string>)
    ensures lines == Lines(t, 0)
  {
    lines := [];
    var i := 0;
    while i < |t|
      invariant 0 <= i <= |t| && lines + Lines(t, i) == Lines(t, 0)
      decreases |t| - i
    {
      var e := LineEnd(t, i);
      var consumed := e + 1;
      if consumed > |t| {
        return;
      }
      if e > i {
        lines := lines + [t[i..e]];
      }
      i := consumed;
    }
  }

  /** Ends with a whole line. */
  predicate Whole(t: string) {
    t == "" || t[|t| - 1] == NEWLINE
  }

  /** How much follows the last newline. */
  function TailSize(t: string): (n: nat)
    ensures n <= |t|
  {
    if t == "" || t[|t| - 1] == NEWLINE then 0 else TailSize(t[..|t| - 1]) + 1
  }

  /** What follows the last newline. */
  function Tail(t: string): (p: string)
    ensures |p| <= |t|
  {
    t[|t| - TailSize(t)..]
  }

  lemma {:induction false} TailFacts(t: string)
    ensures var p := Tail(t); t == t[..|t| - |p|] + p && Unbroken(p) && Whole(t[..|t| - |p|]) && (p == "" <==> Whole(t))
  {
    if t != "" && t[|t| - 1] != NEWLINE {
      var init := t[..|t| - 1];
      TailFacts(init);
      assert t == init + [t[|t| - 1]];
      assert Tail(t) == Tail(init) + [t[|t| - 1]];
      assert t[..|t| - |Tail(t)|] == init[..|init| - |Tail(init)|];
    }
  }

  lemma {:induction false} LineEndIs(t: string, i: nat, e: nat)
    requires i <= e <= |t| && Unbroken(t[i..e]) && (e == |t| || t[e] == NEWLINE)
    ensures LineEnd(t, i) == e
    decreases e - i
  {
    if i < e {
      assert t[i] == t[i..e][0];
      assert t[i + 1..e] == t[i..e][1..];
      LineEndIs(t, i + 1, e);
    }
  }

  lemma LinesStep(t: string, i: nat, e: nat)
    requires i <= e < |t| && Unbroken(t[i..e]) && t[e] == NEWLINE
    ensures Lines(t, i) == (if e == i then [] else [t[i..e]]) + Lines(t, e + 1)
  {
    LineEndIs(t, i, e);
  }

  lemma WholeLine(t: string, i: nat)
    requires Whole(t) && i < |t|
    ensures LineEnd(t, i) < |t|
  {
    assert t[i..|t|][|t| - 1 - i] == NEWLINE;
    assert !Unbroken(t[i..|t|]);
  }

  /** More text behind a whole file adds its own lines and changes none. */
  lemma {:induction false} LinesJoin(t: string, s: string, i: nat)
    requires Whole(t) && i <= |t|
    ensures Lines(t + s, i) == Lines(t, i) + Lines(s, 0)
    decreases |t| - i
  {
    if i == |t| {
      LinesShift(t, s, 0);
    } else {
      hide Lines, LineEnd, Unbroken, Whole;
      var e := LineEnd(t, i);
      WholeLine(t, i);
      assert (t + s)[i..e] == t[i..e] && (t + s)[e] == t[e];
      LinesStep(t, i, e);
      LinesStep(t + s, i, e);
      LinesJoin(t, s, e + 1);
      Assoc(if e == i then [] else [t[i..e]], Lines(t, e + 1), Lines(s, 0));
    }
  }

  lemma Assoc<T>(a: seq<T>, b: seq<T>, c: seq<T>)
    ensures (a + b) + c == a + (b + c)
  {
  }

  lemma {:induction false} LinesShift(t: string, s: string, i: nat)
    requires i <= |s|
    ensures Lines(t + s, |t| + i) == Lines(s, i)
    decreases |s| - i
  {
    var e := LineEnd(s, i);
    EndShift(t, s, i);
    hide LineEnd, Unbroken;
    assert (t + s)[|t| + i..|t| + e] == s[i..e];
    if e < |s| {
      LinesShift(t, s, e + 1);
    }
  }

  lemma EndShift(t: string, s: string, i: nat)
    requires i <= |s|
    ensures LineEnd(t + s, |t| + i) == |t| + LineEnd(s, i)
  {
    var e := LineEnd(s, i);
    assert (t + s)[|t| + i..|t| + e] == s[i..e];
    hide LineEnd;
    LineEndIs(t + s, |t| + i, |t| + e);
  }

  /** Text without a newline reads as nothing. */
  lemma NoLines(p: string)
    requires Unbroken(p)
    ensures Lines(p, 0) == []
  {
    assert p[0..|p|] == p;
    LineEndIs(p, 0, |p|);
  }

  lemma OneLine(l: string)
    requires Unbroken(l) && l != ""
    ensures Lines(l + [NEWLINE], 0) == [l]
  {
    var t := l + [NEWLINE];
    assert t[0..|l|] == l;
    LineEndIs(t, 0, |l|);
    assert LineEnd(t, |t|) == |t|;
  }

  /** A torn append is as if it had never been begun. */
  lemma TornDropped(t: string, l: string, n: nat)
    requires Whole(t) && Unbroken(l) && n <= |l|
    ensures Lines(t + l[..n], 0) == Lines(t, 0)
  {
    LinesJoin(t, l[..n], 0);
    NoLines(l[..n]);
  }

  lemma UnbrokenJoin(p: string, l: string)
    requires Unbroken(p) && Unbroken(l)
    ensures Unbroken(p + l)
  {
  }

  lemma Ends(t: string)
    ensures Whole(t + [NEWLINE])
  {
  }

  /** An append reads as its line behind whatever the file's last line was torn off at. */
  lemma AppendReads(t: string, l: string)
    requires Unbroken(l) && l != ""
    ensures Lines(t + l + [NEWLINE], 0) == Lines(t, 0) + [Tail(t) + l] && Whole(t + l + [NEWLINE])
  {
    hide Lines, Tail, Unbroken;
    TailFacts(t);
    var p := Tail(t);
    var head := t[..|t| - |p|];
    Assoc(head, p, l);
    Assoc(head, p + l, [NEWLINE]);
    UnbrokenJoin(p, l);
    hide Whole;
    LinesJoin(head, (p + l) + [NEWLINE], 0);
    OneLine(p + l);
    LinesJoin(head, p, 0);
    NoLines(p);
    assert Lines(head, 0) + [] == Lines(head, 0);
    Ends(t + l);
  }

  /**
   * So an append is read back as its own line exactly when the file was whole. The
   * reader tolerates a torn last line but leaves it in the file, and the next append
   * runs into it.
   */
  lemma AppendReadable(t: string, l: string)
    requires Unbroken(l) && l != ""
    ensures Lines(t + l + [NEWLINE], 0) == Lines(t, 0) + [l] <==> Whole(t)
  {
    AppendReads(t, l);
    TailFacts(t);
    hide Tail, Lines;
    var a, b := Lines(t, 0) + [Tail(t) + l], Lines(t, 0) + [l];
    assert a[|Lines(t, 0)|] == Tail(t) + l && b[|Lines(t, 0)|] == l;
    assert |Tail(t) + l| == |Tail(t)| + |l|;
    if Whole(t) {
      assert Tail(t) + l == l;
    }
  }
}
