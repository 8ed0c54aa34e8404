/**
 * Inline code: choosing a delimiter the content cannot be confused with, and reading
 * the span back as section 6.1 of CommonMark 0.31.2 says.
 */
module CodeSpan {
  import opened Common

  const TICK := '`'

  // ---- line endings ----

  /** Line endings turned into spaces: a pair of carriage return and newline counts once. */
  function Spaced(s: string): (r: string)
    ensures forall i :: 0 <= i < |r| ==> r[i] != '\r' && r[i] != '\n'
    ensures s != "" ==> r != ""
  {
    if s == "" then ""
    else if |s| >= 2 && s[0] == '\r' && s[1] == '\n' then " " + Spaced(s[2..])
    else if s[0] == '\r' || s[0] == '\n' then " " + Spaced(s[1..])
    else [s[0]] + Spaced(s[1..])
  }

  /** One pass replacing the two-character ending. */
  function ReplacePair(s: string): string {
    if s == "" then ""
    else if |s| >= 2 && s[0] == '\r' && s[1] == '\n' then " " + ReplacePair(s[2..])
    else [s[0]] + ReplacePair(s[1..])
  }

  /** One pass replacing a single character. */
  function ReplaceOne(s: string, c: char): string {
    if s == "" then "" else [if s[0] == c then ' ' else s[0]] + ReplaceOne(s[1..], c)
  }

  /** The three passes together turn exactly the line endings into spaces. */
  lemma {:induction false} ThreePasses(s: string)
    ensures ReplaceOne(ReplaceOne(ReplacePair(s), '\n'), '\r') == Spaced(s)
  {
    if s != "" {
      var n := if |s| >= 2 && s[0] == '\r' && s[1] == '\n' then 2 else 1;
      ThreePasses(s[n..]);
      var c := if n == 2 then ' ' else s[0];
      OneReplaced(c, ReplacePair(s[n..]));
    }
  }

  lemma OneReplaced(c: char, t: string)
    ensures ReplaceOne(ReplaceOne([c] + t, '\n'), '\r') ==
      [if c == '\n' || c == '\r' then ' ' else c] + ReplaceOne(ReplaceOne(t, '\n'), '\r')
  {
    assert ([c] + t)[1..] == t;
  }

  lemma {:induction false} SpacedAlready(s: string)
    requires forall i :: 0 <= i < |s| ==> s[i] != '\r' && s[i] != '\n'
    ensures Spaced(s) == s
  {
    if s != "" {
      SpacedAlready(s[1..]);
    }
  }

  // ---- backtick runs ----

  /** How many backticks stand at i. */
  function RunAt(s: string, i: nat): (n: nat)
    requires i <= |s|
    ensures i + n <= |s| && (forall j :: i <= j < i + n ==> s[j] == TICK)
    ensures i + n < |s| ==> s[i + n] != TICK
    decreases |s| - i
  {
    if i < |s| && s[i] == TICK then 1 + RunAt(s, i + 1) else 0
  }

  /** A maximal run of n backticks at i. */
  ghost predicate Maximal(s: string, i: nat, n: nat) {
    && n > 0 && i + n <= |s| && (forall j :: i <= j < i + n ==> s[j] == TICK)
    && (i == 0 || s[i - 1] != TICK) && (i + n == |s| || s[i + n] != TICK)
  }

  ghost predicate HasRun(s: string, n: nat) {
    exists i :: 0 <= i < |s| && Maximal(s, i, n)
  }

  /** Where a scan that leaps over whole runs first meets one of length n. */
  function Meets(s: string, i: nat, n: nat): (r: Option<nat>)
    requires i <= |s| && n > 0
    ensures r.Some? ==> i <= r.value < |s|
    decreases |s| - i
  {
    if i == |s| then None
    else if s[i] != TICK then Meets(s, i + 1, n)
    else
      var run := RunAt(s, i);
      if run == n then Some(i) else Meets(s, i + run, n)
  }

  lemma {:induction false} RunIs(s: string, i: nat, n: nat)
    requires i <= |s| && i + n <= |s| && (forall j :: i <= j < i + n ==> s[j] == TICK)
    requires i + n == |s| || s[i + n] != TICK
    ensures RunAt(s, i) == n
    decreases n
  {
    if n > 0 {
      RunIs(s, i + 1, n - 1);
    }
  }

  /** The scan meets exactly the maximal runs of length n. */
  lemma {:induction false} MeetsRuns(s: string, i: nat, n: nat)
    requires i <= |s| && n > 0 && (i == 0 || i == |s| || s[i - 1] != TICK || s[i] != TICK)
    ensures Meets(s, i, n).Some? <==> exists j :: i <= j < |s| && Maximal(s, j, n)
    decreases |s| - i
  {
    if i < |s| {
      if s[i] != TICK {
        MeetsRuns(s, i + 1, n);
        assert !Maximal(s, i, n);
      } else {
        var run := RunAt(s, i);
        MeetsRuns(s, i + run, n);
        forall j | i < j < i + run
          ensures !Maximal(s, j, n)
        {
          assert s[j - 1] == TICK;
        }
        if Maximal(s, i, n) {
          RunIs(s, i, n);
        }
        assert Maximal(s, i, run);
      }
    }
  }

  // ---- printing ----

  predicate AllSpaces(s: string) {
    forall i :: 0 <= i < |s| ==> s[i] == ' '
  }

  predicate NeedsSpace(s: string)
    requires s != ""
  {
    || s[0] == TICK || s[|s| - 1] == TICK
    || (|s| >= 2 && s[0] == ' ' && s[|s| - 1] == ' ' && !AllSpaces(s))
  }

  function Ticks(n: nat): string {
    seq(n, _ => TICK)
  }

  function Padded(s: string): (r: string)
    requires s != ""
  {
    if NeedsSpace(s) then " " + s + " " else s
  }

  /** Does a run of this length stand in the content? */
  method Clashes(content: string, n: nat) returns (clash: bool)
    requires n > 0
    ensures clash <==> HasRun(content, n)
  {
    MeetsRuns(content, 0, n);
    var i := 0;
    while i < |content|
      invariant 0 <= i <= |content| && Meets(content, i, n) == Meets(content, 0, n)
    {
      if content[i] != TICK {
        i := i + 1;
        continue;
      }
      var run := 0;
      while i + run < |content| && content[i + run] == TICK
        invariant i + run <= |content| && forall j :: i <= j < i + run ==> content[j] == TICK
      {
        run := run + 1;
      }
      RunIs(content, i, run);
      if run == n {
        return true;
      }
      i := i + run;
    }
    return false;
  }

  /** The shortest delimiter that is no run of the content. */
  method Delimiter(content: string) returns (d: string)
    ensures |d| > 0 && d == Ticks(|d|) && !HasRun(content, |d|)
    ensures forall m :: 0 < m < |d| ==> HasRun(content, m)
  {
    d := [TICK];
    while true
      invariant |d| > 0 && d == Ticks(|d|) && |d| <= |content| + 1
      invariant forall m :: 0 < m < |d| ==> HasRun(content, m)
      decreases |content| + 1 - |d|
    {
      var clash := Clashes(content, |d|);
      if !clash {
        break;
      }
      d := d + [TICK];
    }
  }

  lemma Spelled(c: string, d: string, extra: string)
    requires c != "" && extra == if NeedsSpace(c) then " " else ""
    ensures d + extra + c + extra + d == d + Padded(c) + d
  {
    if extra == " " {
      assert d + extra + c + extra + d == d + (extra + c + extra) + d;
    } else {
      assert d + extra + c + extra + d == d + c + d;
    }
  }

  /** Prints content as inline code. */
  method ApplyInlineCode(content: string) returns (r: string)
    ensures content == "" ==> r == ""
    ensures content != "" ==>
      exists n :: n > 0 && r == Ticks(n) + Padded(Spaced(content)) + Ticks(n) && !HasRun(Spaced(content), n)
                  && forall m :: 0 < m < n ==> HasRun(Spaced(content), m)
    ensures content != "" ==> ReadSpan(r) == Some(Spaced(content))
  {
    if content == "" {
      return "";
    }
    ThreePasses(content);
    var c := ReplaceOne(ReplaceOne(ReplacePair(content), '\n'), '\r');
    var needsSpace := c[0] == TICK || c[|c| - 1] == TICK;
    if !needsSpace && |c| >= 2 && c[0] == ' ' && c[|c| - 1] == ' ' && !AllSpaces(c) {
      needsSpace := true;
    }
    var extra := if needsSpace then " " else "";
    var d := Delimiter(c);
    r := d + extra + c + extra + d;
    Spelled(c, d, extra);
    RoundTrip(c, |d|);
  }

  // ---- reading ----

  /** Line endings become spaces, then one space is taken off each side unless there are only spaces. */
  function Normalized(inner: string): string {
    var s := Spaced(inner);
    if s != "" && s[0] == ' ' && s[|s| - 1] == ' ' && !AllSpaces(s) then s[1..|s| - 1] else s
  }

  /** Reads a text that is one code span from its first character to its last. */
  function ReadSpan(s: string): Option<string> {
    var n := RunAt(s, 0);
    if n == 0 then None
    else match Meets(s, n, n)
      case None => None
      case Some(close) => if close + n == |s| then Some(Normalized(s[n..close])) else None
  }

  /** A space on either side makes no run and breaks none. */
  lemma PaddedRuns(c: string, n: nat)
    requires c != "" && n > 0 && !HasRun(c, n)
    ensures !HasRun(Padded(c), n)
  {
    var t := Padded(c);
    if NeedsSpace(c) {
      forall j | 0 <= j < |t|
        ensures !Maximal(t, j, n)
      {
        if Maximal(t, j, n) {
          SpacedRun(c, j, n);
        }
      }
    }
  }

  lemma SpacedRun(c: string, j: nat, n: nat)
    requires Maximal(" " + c + " ", j, n)
    ensures HasRun(c, n)
  {
    var t := " " + c + " ";
    assert t[0] == ' ' && t[|t| - 1] == ' ';
    assert t[j] == TICK && t[j + n - 1] == TICK;
    assert forall i :: 0 <= i < |c| ==> t[i + 1] == c[i];
    forall i | j - 1 <= i < j - 1 + n
      ensures c[i] == TICK
    {
      assert t[i + 1] == TICK;
    }
    assert Maximal(c, j - 1, n);
  }

  lemma SpanAt(n: nat, body: string)
    ensures var s := Ticks(n) + body + Ticks(n);
      && |s| == n + |body| + n
      && (forall j :: n <= j < n + |body| ==> s[j] == body[j - n])
      && forall j :: n + |body| <= j < |s| ==> s[j] == TICK
  {
  }

  /** A run of the body is the same run of the span. */
  lemma RunInside(n: nat, body: string, i: nat)
    requires n > 0 && i < |body| && body[i] == TICK && body[|body| - 1] != TICK
    ensures i + RunAt(body, i) < |body| && RunAt(Ticks(n) + body + Ticks(n), n + i) == RunAt(body, i)
  {
    var s, run := Ticks(n) + body + Ticks(n), RunAt(body, i);
    SpanAt(n, body);
    hide Ticks;
    assert i + run < |body|;
    assert forall j :: n + i <= j < n + i + run ==> s[j] == TICK;
    assert s[n + (i + run)] == body[i + run];
    RunIs(s, n + i, run);
  }

  /** Scanning the body inside the span: it meets nothing until the closing delimiter. */
  lemma {:induction false} MeetsClose(n: nat, body: string, i: nat)
    requires n > 0 && i <= |body| && Meets(body, i, n).None?
    requires body != "" && body[|body| - 1] != TICK
    ensures Meets(Ticks(n) + body + Ticks(n), n + i, n) == Some(n + |body|)
    decreases |body| - i
  {
    var s := Ticks(n) + body + Ticks(n);
    SpanAt(n, body);
    hide Ticks;
    if i == |body| {
      RunIs(s, n + |body|, n);
    } else {
      assert s[n + i] == body[i];
      if body[i] != TICK {
        MeetsClose(n, body, i + 1);
      } else {
        RunInside(n, body, i);
        MeetsClose(n, body, i + RunAt(body, i));
      }
    }
  }

  lemma PaddedEnds(c: string)
    requires c != "" && forall i :: 0 <= i < |c| ==> c[i] != '\r' && c[i] != '\n'
    ensures Padded(c) != "" && Padded(c)[0] != TICK && Padded(c)[|Padded(c)| - 1] != TICK
    ensures Normalized(Padded(c)) == c
  {
    var p := Padded(c);
    SpacedAlready(p);
    if NeedsSpace(c) {
      assert p[1..|p| - 1] == c;
      if AllSpaces(p) {
        assert forall i :: 0 <= i < |c| ==> c[i] == p[i + 1];
        assert false;
      }
    }
  }

  /** Reading back what was printed gives the content again. */
  lemma RoundTrip(c: string, n: nat)
    requires c != "" && n > 0 && !HasRun(c, n) && forall i :: 0 <= i < |c| ==> c[i] != '\r' && c[i] != '\n'
    ensures ReadSpan(Ticks(n) + Padded(c) + Ticks(n)) == Some(c)
  {
    var body := Padded(c);
    var s := Ticks(n) + body + Ticks(n);
    PaddedEnds(c);
    PaddedRuns(c, n);
    hide Padded, Normalized;
    assert s[n] == body[0];
    RunIs(s, 0, n);
    MeetsRuns(body, 0, n);
    MeetsClose(n, body, 0);
    assert s[n..n + |body|] == body;
  }

  // ---- no padding without need ----

  /** What the leaping scan meets is a maximal run. */
  lemma {:induction false} MeetsMaximal(s: string, i: nat, n: nat)
    requires i <= |s| && n > 0 && (i == 0 || i == |s| || s[i - 1] != TICK || s[i] != TICK)
    ensures Meets(s, i, n).Some? ==> Maximal(s, Meets(s, i, n).value, n)
    decreases |s| - i
  {
    if i < |s| {
      if s[i] != TICK {
        MeetsMaximal(s, i + 1, n);
      } else {
        MeetsMaximal(s, i + RunAt(s, i), n);
      }
    }
  }

  lemma {:induction false} SpacedShrinks(s: string)
    ensures |Spaced(s)| <= |s|
  {
    if s != "" {
      SpacedShrinks(s[1..]);
      if |s| >= 2 {
        SpacedShrinks(s[2..]);
      }
    }
  }

  lemma NormalizedShrinks(s: string)
    ensures |Normalized(s)| <= |s|
  {
    SpacedShrinks(s);
  }

  /** Unpadded, a backtick in front lengthens the opening delimiter. */
  lemma TickInFront(c: string, n: nat)
    requires c != "" && n > 0 && c[0] == TICK
    ensures ReadSpan(Ticks(n) + c + Ticks(n)) != Some(c)
  {
    var s := Ticks(n) + c + Ticks(n);
    SpanAt(n, c);
    var m := RunAt(s, 0);
    assert forall j :: 0 <= j < n ==> s[j] == TICK;
    assert s[n] == TICK;
    assert m > n;
    hide Normalized;
    if Meets(s, m, m).Some? {
      NormalizedShrinks(s[m..Meets(s, m, m).value]);
    }
  }

  /** Unpadded, a backtick at the end lengthens the closing one. */
  lemma TickAtEnd(c: string, n: nat)
    requires c != "" && n > 0 && c[0] != TICK && c[|c| - 1] == TICK
    ensures ReadSpan(Ticks(n) + c + Ticks(n)) != Some(c)
  {
    var s := Ticks(n) + c + Ticks(n);
    SpanAt(n, c);
    assert s[n] == c[0] && s[n + |c| - 1] == TICK;
    RunIs(s, 0, n);
    MeetsMaximal(s, n, n);
    hide Normalized;
  }

  /** Unpadded, spaces on both sides are taken for padding. */
  lemma SpacesLost(c: string, n: nat)
    requires c != "" && n > 0 && !HasRun(c, n) && forall i :: 0 <= i < |c| ==> c[i] != '\r' && c[i] != '\n'
    requires c[0] == ' ' && c[|c| - 1] == ' ' && !AllSpaces(c)
    ensures ReadSpan(Ticks(n) + c + Ticks(n)) != Some(c)
  {
    var s := Ticks(n) + c + Ticks(n);
    SpanAt(n, c);
    assert s[n] == c[0];
    RunIs(s, 0, n);
    MeetsRuns(c, 0, n);
    MeetsClose(n, c, 0);
    assert s[n..n + |c|] == c;
    SpacedAlready(c);
  }

  /** The padding is put exactly where the content could not be read back without it. */
  lemma PaddingNeeded(c: string, n: nat)
    requires c != "" && n > 0 && !HasRun(c, n) && forall i :: 0 <= i < |c| ==> c[i] != '\r' && c[i] != '\n'
    ensures Padded(c) == c <==> ReadSpan(Ticks(n) + c + Ticks(n)) == Some(c)
  {
    RoundTrip(c, n);
    hide ReadSpan, HasRun, Ticks;
    if NeedsSpace(c) {
      if c[0] == TICK {
        TickInFront(c, n);
      } else if c[|c| - 1] == TICK {
        TickAtEnd(c, n);
      } else {
        SpacesLost(c, n);
      }
    }
  }
}
