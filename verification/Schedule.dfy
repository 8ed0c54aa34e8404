/**
 * The month scheduler: which monthly files a run fetches, decided from nothing but
 * the files themselves (their rows and their write times) and the clock.
 */
module Schedule {
  import opened Common

  const DAY_SECONDS: int := 86400

  /** Days are numbers, cut into months; month m is the days from first(m) to Last(m). */
  datatype Calendar = Calendar(first: int -> int, monthOf: int -> int) {
    function Last(m: int): int {
      first(m + 1) - 1
    }

    ghost predicate Valid() {
      && (forall i, j :: i < j ==> first(i) < first(j))
      && forall d :: first(monthOf(d)) <= d <= Last(monthOf(d))
    }
  }

  /** A table row: its visible date (None when unreadable) and its identity. */
  datatype Row = Row(vd: Option<int>, key: int)

  /** What stood behind a write: not stored by the program, only used to state properties. */
  datatype Note = Note(day: int, closed: bool, upto: int, horizon: int)

  /** A monthly file: its rows, and when it was last written, in seconds. */
  datatype File = File(rows: seq<Row>, at: int, note: Note)

  datatype Config = Config(start: int, lookback: int, dedup: int, availHour: int, offset: int) {
    predicate Valid() {
      0 <= availHour <= 24 && -DAY_SECONDS < offset < DAY_SECONDS
    }
  }

  /** The moment a plan is made: the date it was given, the local hour and the clock. */
  datatype Query = Query(today: int, hour: int, now: int)

  /** One planned fetch: days start to end, and from inc on only when appending. */
  datatype Fetch = Fetch(ym: int, start: int, end: int, inc: Option<int>) {
    function Lower(): int {
      if inc.Some? then inc.value else start
    }
  }

  type Files = map<int, File>

  function Look(files: Files, m: int): Option<File> {
    if m in files then Some(files[m]) else None
  }

  /** The day, in UTC, on which a file was written. */
  function WriteDay(at: int): int {
    at / DAY_SECONDS
  }

  function LocalDay(cfg: Config, now: int): int {
    (now + cfg.offset) / DAY_SECONDS
  }

  function Horizon(cfg: Config, q: Query): int {
    if q.hour >= cfg.availHour then q.today else q.today - 1
  }

  predicate Closed(c: Calendar, cfg: Config, q: Query, m: int) {
    c.Last(m) < q.today - cfg.lookback
  }

  predicate InSpan(c: Calendar, cfg: Config, q: Query, m: int) {
    c.monthOf(cfg.start) <= m <= c.monthOf(q.today)
  }

  function StartOf(c: Calendar, cfg: Config, m: int): int {
    MaxInt(c.first(m), cfg.start)
  }

  function EndOf(c: Calendar, cfg: Config, q: Query, m: int): int {
    if Closed(c, cfg, q, m) then c.Last(m) else MinInt(c.Last(m), Horizon(cfg, q))
  }

  /** The latest readable visible date. */
  function MaxVd(rows: seq<Row>): (w: Option<int>)
    ensures w.None? <==> forall i :: 0 <= i < |rows| ==> rows[i].vd.None?
    ensures w.Some? ==> exists i :: 0 <= i < |rows| && rows[i].vd == w
    ensures w.Some? ==> forall i :: 0 <= i < |rows| && rows[i].vd.Some? ==> rows[i].vd.value <= w.value
  {
    if rows == [] then None
    else
      var n := |rows| - 1;
      var w := MaxVd(rows[..n]);
      if rows[n].vd.None? then w
      else if w.None? || w.value <= rows[n].vd.value then rows[n].vd
      else w
  }

  method FileMaxVd(rows: seq<Row>) returns (w: Option<int>)
    ensures w == MaxVd(rows)
  {
    w := None;
    var i := 0;
    while i < |rows|
      invariant 0 <= i <= |rows| && w == MaxVd(rows[..i])
    {
      assert rows[..i + 1][..i] == rows[..i];
      if rows[i].vd.Some? && (w.None? || w.value <= rows[i].vd.value) {
        w := rows[i].vd;
      }
      i := i + 1;
    }
    assert rows[..i] == rows;
  }

  // ---- what is due ----

  /** A closed month is due unless it was written late enough to be frozen. */
  predicate Thawed(c: Calendar, cfg: Config, file: Option<File>, m: int) {
    file.None? || WriteDay(file.value.at) < c.Last(m) + cfg.lookback
  }

  /** An open month is held back while its file is younger than the window. */
  predicate HeldBack(cfg: Config, q: Query, file: Option<File>) {
    file.Some? && 0 <= q.now - file.value.at < cfg.dedup
  }

  /** Where an open month's fetch goes on: past its watermark, or from the start. */
  function Resume(q: Query, file: Option<File>): Option<int> {
    if file.None? || q.now < file.value.at then None
    else
      var w := MaxVd(file.value.rows);
      if w.None? then None else Some(w.value + 1)
  }

  /** The fetch due for month m. */
  function Due(c: Calendar, cfg: Config, q: Query, m: int, file: Option<File>): Option<Fetch> {
    var whole := Fetch(m, StartOf(c, cfg, m), EndOf(c, cfg, q, m), None);
    if Closed(c, cfg, q, m) then
      if Thawed(c, cfg, file, m) then Some(whole) else None
    else if HeldBack(cfg, q, file) || whole.start > whole.end then None
    else
      var inc := Resume(q, file);
      if inc.Some? && inc.value > whole.end then None else Some(whole.(inc := inc))
  }

  /** What is due in the months before ym. */
  ghost predicate PlanUpTo(c: Calendar, cfg: Config, q: Query, files: Files, out: seq<Fetch>, ym: int) {
    forall f :: f in out <==> c.monthOf(cfg.start) <= f.ym < ym && Due(c, cfg, q, f.ym, Look(files, f.ym)) == Some(f)
  }

  lemma PlanBegins(c: Calendar, cfg: Config, q: Query, files: Files)
    ensures PlanUpTo(c, cfg, q, files, [], c.monthOf(cfg.start))
  {
  }

  lemma PlanNext(c: Calendar, cfg: Config, q: Query, files: Files, out: seq<Fetch>, ym: int, due: Option<Fetch>)
    requires PlanUpTo(c, cfg, q, files, out, ym) && c.monthOf(cfg.start) <= ym
    requires due == Due(c, cfg, q, ym, Look(files, ym)) && (due.Some? ==> due.value.ym == ym)
    ensures PlanUpTo(c, cfg, q, files, if due.Some? then out + [due.value] else out, ym + 1)
    ensures forall f :: f in out ==> f.ym < ym
  {
    hide Due;
  }

  lemma PlanEnds(c: Calendar, cfg: Config, q: Query, files: Files, out: seq<Fetch>)
    requires PlanUpTo(c, cfg, q, files, out, c.monthOf(q.today) + 1)
    ensures forall f :: f in out <==> InSpan(c, cfg, q, f.ym) && Due(c, cfg, q, f.ym, Look(files, f.ym)) == Some(f)
  {
    hide Due;
  }

  /** The plan, month by month: exactly the fetches due, each month at most once. */
  method PlanMonths(c: Calendar, cfg: Config, q: Query, files: Files) returns (out: seq<Fetch>)
    requires c.Valid() && cfg.start <= q.today
    ensures forall i, j :: 0 <= i < j < |out| ==> out[i].ym < out[j].ym
    ensures forall f :: f in out <==> InSpan(c, cfg, q, f.ym) && Due(c, cfg, q, f.ym, Look(files, f.ym)) == Some(f)
  {
    hide Due, Closed, Horizon, WriteDay, PlanUpTo;
    PlanBegins(c, cfg, q, files);
    MonthOrder(c, cfg.start, q.today);
    out := [];
    var frozenBefore := q.today - cfg.lookback;
    var horizon := Horizon(cfg, q);
    var endYm := c.monthOf(q.today);
    var ym := c.monthOf(cfg.start);
    while true
      invariant c.monthOf(cfg.start) <= ym <= endYm
      invariant forall i :: 0 <= i < |out| ==> out[i].ym < ym
      invariant forall i, j :: 0 <= i < j < |out| ==> out[i].ym < out[j].ym
      invariant PlanUpTo(c, cfg, q, files, out, ym)
      decreases endYm - ym
    {
      var due := PlanMonth(c, cfg, q, frozenBefore, horizon, ym, files);
      PlanNext(c, cfg, q, files, out, ym, due);
      if due.Some? {
        out := out + [due.value];
      }
      if ym == endYm {
        break;
      }
      ym := ym + 1;
    }
    PlanEnds(c, cfg, q, files, out);
  }

  /** One turn of the loop. */
  method PlanMonth(c: Calendar, cfg: Config, q: Query, frozenBefore: int, horizon: int, ym: int, files: Files)
    returns (due: Option<Fetch>)
    requires frozenBefore == q.today - cfg.lookback && horizon == Horizon(cfg, q)
    ensures due == Due(c, cfg, q, ym, Look(files, ym))
    ensures due.Some? ==> due.value.ym == ym
  {
    var mFirst, mLast := c.first(ym), c.Last(ym);
    var p := Look(files, ym);
    if mLast < frozenBefore {
      if p.None? || WriteDay(p.value.at) < mLast + cfg.lookback {
        return Some(Fetch(ym, MaxInt(mFirst, cfg.start), mLast, None));
      }
      return None;
    }
    var age := if p.None? then -1 else q.now - p.value.at;
    var wStart := MaxInt(mFirst, cfg.start);
    var wEnd := MinInt(mLast, horizon);
    due := None;
    if (age < 0 || age >= cfg.dedup) && wStart <= wEnd {
      if age < 0 {
        due := Some(Fetch(ym, wStart, wEnd, None));
      } else {
        var w := FileMaxVd(p.value.rows);
        if w.None? {
          due := Some(Fetch(ym, wStart, wEnd, None));
        } else if w.value + 1 <= wEnd {
          due := Some(Fetch(ym, wStart, wEnd, Some(w.value + 1)));
        }
      }
    }
  }

  lemma MonthOrder(c: Calendar, d: int, e: int)
    requires c.Valid() && d <= e
    ensures c.monthOf(d) <= c.monthOf(e)
  {
  }
}
