/**
 * Many scheduler runs on a clock that never goes back. Each run carries out any part
 * of its plan; a fetch may fail, and a run may outlast the day it was planned on.
 */
module ScheduleRuns {
  import opened Common
  import opened Schedule

  /** A fetch that came back: its rows, and when they were written. */
  datatype Got = Got(rows: seq<Row>, at: int)

  /** One run: its plan's moment, what came back for which month, and when it ended. */
  datatype Run = Run(q: Query, got: map<int, Got>, end: int)

  /** The disk between runs, with the latest instant and date so far. */
  datatype Disk = Disk(files: Files, clock: int, today: int)

  /** Rows the service may answer a fetch with: dated inside it, none twice. */
  ghost predicate Answers(f: Fetch, rows: seq<Row>) {
    && Distinct(rows)
    && forall i :: 0 <= i < |rows| ==> rows[i].vd.Some? && f.Lower() <= rows[i].vd.value <= f.end
  }

  ghost predicate ValidQuery(c: Calendar, cfg: Config, s: Disk, q: Query) {
    && c.Valid() && cfg.Valid()
    && s.clock <= q.now && s.today <= q.today <= LocalDay(cfg, q.now) && cfg.start <= q.today
  }

  ghost predicate ValidRun(c: Calendar, cfg: Config, s: Disk, r: Run) {
    && ValidQuery(c, cfg, s, r.q) && r.q.now <= r.end
    && forall m :: m in r.got ==>
      && InSpan(c, cfg, r.q, m) && Due(c, cfg, r.q, m, Look(s.files, m)).Some?
      && Answers(Due(c, cfg, r.q, m, Look(s.files, m)).value, r.got[m].rows)
      && r.q.now <= r.got[m].at <= r.end
  }

  /** Writing what came back: over the file, or behind its rows. An empty append only touches the file. */
  function Written(c: Calendar, cfg: Config, q: Query, file: Option<File>, f: Fetch, g: Got): File {
    File(if f.inc.Some? && file.Some? then file.value.rows + g.rows else g.rows, g.at,
         Note(q.today, Closed(c, cfg, q, f.ym), EndOf(c, cfg, q, f.ym), Horizon(cfg, q)))
  }

  function After(c: Calendar, cfg: Config, s: Disk, r: Run): Disk
    requires forall m :: m in r.got ==> Due(c, cfg, r.q, m, Look(s.files, m)).Some?
  {
    Disk(map m | m in s.files.Keys + r.got.Keys ::
           if m in r.got then Written(c, cfg, r.q, Look(s.files, m), Due(c, cfg, r.q, m, Look(s.files, m)).value, r.got[m])
           else s.files[m],
         r.end, r.q.today)
  }

  ghost predicate Runs(c: Calendar, cfg: Config, s: Disk, rs: seq<Run>)
    decreases |rs|
  {
    rs == [] || (ValidRun(c, cfg, s, rs[0]) && Runs(c, cfg, After(c, cfg, s, rs[0]), rs[1..]))
  }

  ghost function Final(c: Calendar, cfg: Config, s: Disk, rs: seq<Run>): Disk
    requires Runs(c, cfg, s, rs)
    decreases |rs|
  {
    if rs == [] then s else Final(c, cfg, After(c, cfg, s, rs[0]), rs[1..])
  }

  // ---- what every run keeps ----

  /** A file on disk: its own month's rows, each once, written after its plan was made. */
  ghost predicate FileOk(c: Calendar, cfg: Config, s: Disk, m: int, file: File) {
    && Distinct(file.rows)
    && (forall i :: 0 <= i < |file.rows| ==>
          file.rows[i].vd.Some? && StartOf(c, cfg, m) <= file.rows[i].vd.value <= file.note.upto)
    && file.at <= s.clock && file.note.day <= s.today && file.note.day - 1 <= WriteDay(file.at)
    && (file.note.closed <==> c.Last(m) + cfg.lookback < file.note.day)
    && file.note.upto == (if file.note.closed then c.Last(m) else MinInt(c.Last(m), file.note.horizon))
    && file.note.day - 1 <= file.note.horizon <= file.note.day
  }

  ghost predicate DiskOk(c: Calendar, cfg: Config, s: Disk) {
    forall m :: m in s.files ==> FileOk(c, cfg, s, m, s.files[m])
  }

  lemma WriteDayFrom(cfg: Config, today: int, now: int, at: int)
    requires cfg.Valid() && today <= LocalDay(cfg, now) && now <= at
    ensures today - 1 <= WriteDay(at)
  {
  }

  /** An append holds only rows later than everything on file. */
  lemma AppendsLater(c: Calendar, cfg: Config, q: Query, m: int, file: File, rows: seq<Row>, i: nat, j: nat)
    requires Due(c, cfg, q, m, Some(file)).Some?
    requires var f := Due(c, cfg, q, m, Some(file)).value; f.inc.Some? && Answers(f, rows)
    requires i < |file.rows| && file.rows[i].vd.Some? && j < |rows|
    ensures rows[j].vd.Some? && file.rows[i].vd.value < rows[j].vd.value
  {
  }

  lemma DistinctJoin<T>(s: seq<T>, t: seq<T>)
    requires Distinct(s) && Distinct(t) && forall i, j :: 0 <= i < |s| && 0 <= j < |t| ==> s[i] != t[j]
    ensures Distinct(s + t)
  {
  }

  lemma RowsOk(c: Calendar, cfg: Config, s: Disk, r: Run, m: int)
    requires ValidRun(c, cfg, s, r) && DiskOk(c, cfg, s) && m in r.got
    ensures var file := After(c, cfg, s, r).files[m];
      && Distinct(file.rows)
      && forall i :: 0 <= i < |file.rows| ==>
           file.rows[i].vd.Some? && StartOf(c, cfg, m) <= file.rows[i].vd.value <= file.note.upto
  {
    var f, g := Due(c, cfg, r.q, m, Look(s.files, m)).value, r.got[m];
    if f.inc.Some? {
      var old0 := s.files[m];
      forall i: nat, j: nat | i < |old0.rows| && j < |g.rows|
        ensures old0.rows[i].vd.Some? && g.rows[j].vd.Some? && old0.rows[i].vd.value < g.rows[j].vd.value
      {
        AppendsLater(c, cfg, r.q, m, old0, g.rows, i, j);
      }
      DistinctJoin(old0.rows, g.rows);
      WatermarkAhead(c, cfg, s, r.q, m);
    }
  }

  lemma WatermarkAhead(c: Calendar, cfg: Config, s: Disk, q: Query, m: int)
    requires Due(c, cfg, q, m, Look(s.files, m)).Some? && Due(c, cfg, q, m, Look(s.files, m)).value.inc.Some?
    ensures m in s.files && forall i :: 0 <= i < |s.files[m].rows| && s.files[m].rows[i].vd.Some? ==>
      s.files[m].rows[i].vd.value <= EndOf(c, cfg, q, m)
  {
  }

  lemma WrittenOk(c: Calendar, cfg: Config, s: Disk, r: Run, m: int)
    requires ValidRun(c, cfg, s, r) && DiskOk(c, cfg, s) && m in r.got
    ensures FileOk(c, cfg, After(c, cfg, s, r), m, After(c, cfg, s, r).files[m])
  {
    RowsOk(c, cfg, s, r, m);
    WriteDayFrom(cfg, r.q.today, r.q.now, r.got[m].at);
    hide Due, Distinct, DiskOk, Answers, StartOf, WriteDay, LocalDay;
  }

  lemma RunKeeps(c: Calendar, cfg: Config, s: Disk, r: Run)
    requires ValidRun(c, cfg, s, r) && DiskOk(c, cfg, s)
    ensures DiskOk(c, cfg, After(c, cfg, s, r))
  {
    forall m | m in After(c, cfg, s, r).files
      ensures FileOk(c, cfg, After(c, cfg, s, r), m, After(c, cfg, s, r).files[m])
    {
      if m in r.got {
        WrittenOk(c, cfg, s, r, m);
      }
    }
  }

  /** Over any runs every file holds its own month's rows, and none of them twice. */
  lemma {:induction false} RunsKeep(c: Calendar, cfg: Config, s: Disk, rs: seq<Run>)
    requires Runs(c, cfg, s, rs) && DiskOk(c, cfg, s)
    ensures DiskOk(c, cfg, Final(c, cfg, s, rs))
    decreases |rs|
  {
    if rs != [] {
      RunKeeps(c, cfg, s, rs[0]);
      RunsKeep(c, cfg, After(c, cfg, s, rs[0]), rs[1..]);
    }
  }

  // ---- closed months ----

  /** Month m is closed as of the disk's date and its file was written late enough. */
  ghost predicate Frozen(c: Calendar, cfg: Config, s: Disk, m: int) {
    && m in s.files && c.Last(m) < s.today - cfg.lookback
    && c.Last(m) + cfg.lookback <= WriteDay(s.files[m].at)
  }

  /**
   * After a run finds a month closed, its file is frozen, unless the fetch the run
   * planned for it did not come back. The write may well land on the day before in UTC.
   */
  lemma CloseFreezes(c: Calendar, cfg: Config, s: Disk, r: Run, m: int)
    requires ValidRun(c, cfg, s, r) && InSpan(c, cfg, r.q, m) && Closed(c, cfg, r.q, m)
    ensures Frozen(c, cfg, After(c, cfg, s, r), m) <==> m in r.got || Due(c, cfg, r.q, m, Look(s.files, m)).None?
  {
    if m in r.got {
      WriteDayFrom(cfg, r.q.today, r.q.now, r.got[m].at);
    }
  }

  /** A frozen month is never planned again, and its file never changes. */
  lemma {:induction false} FrozenForever(c: Calendar, cfg: Config, s: Disk, rs: seq<Run>, m: int)
    requires Runs(c, cfg, s, rs) && Frozen(c, cfg, s, m)
    ensures Frozen(c, cfg, Final(c, cfg, s, rs), m) && Final(c, cfg, s, rs).files[m] == s.files[m]
    ensures forall k :: 0 <= k < |rs| ==> m !in rs[k].got
    decreases |rs|
  {
    if rs != [] {
      assert Due(c, cfg, rs[0].q, m, Look(s.files, m)).None?;
      FrozenForever(c, cfg, After(c, cfg, s, rs[0]), rs[1..], m);
      forall k | 0 <= k < |rs|
        ensures m !in rs[k].got
      {
        if k > 0 { assert rs[k] == rs[1..][k - 1]; }
      }
    }
  }

  /** A closed month passed over was last written on or after its end plus the lookback, and only then. */
  lemma PassedOver(c: Calendar, cfg: Config, s: Disk, q: Query, m: int)
    requires ValidQuery(c, cfg, s, q) && Closed(c, cfg, q, m)
    ensures Due(c, cfg, q, m, Look(s.files, m)).None? <==>
      m in s.files && c.Last(m) + cfg.lookback <= WriteDay(s.files[m].at)
  {
  }

  /** A month just written is not planned again that day while its file is young. */
  lemma NotAgainToday(c: Calendar, cfg: Config, s: Disk, r: Run, q: Query, m: int)
    requires ValidRun(c, cfg, s, r) && m in r.got && ValidQuery(c, cfg, After(c, cfg, s, r), q)
    requires q.today == r.q.today && q.now - r.got[m].at < cfg.dedup
    ensures Due(c, cfg, q, m, Look(After(c, cfg, s, r).files, m)).None?
  {
    WriteDayFrom(cfg, r.q.today, r.q.now, r.got[m].at);
  }

  // ---- the whole-month refetch ----

  /**
   * A fetch planned while its month is open is no refetch of the whole closed month, and
   * yet the month is passed over from then on exactly when the write falls on or after
   * its end plus the lookback.
   */
  lemma OpenWriteFreezes(c: Calendar, cfg: Config, s: Disk, r: Run, m: int, q: Query)
    requires ValidRun(c, cfg, s, r) && m in r.got && !Closed(c, cfg, r.q, m)
    requires Closed(c, cfg, q, m)
    ensures var t := After(c, cfg, s, r);
      && !t.files[m].note.closed
      && (Due(c, cfg, q, m, Look(t.files, m)).None? <==> c.Last(m) + cfg.lookback <= WriteDay(r.got[m].at))
  {
  }

  /** The last run that fetched month m, and the disk it was planned on. */
  ghost function LastFetch(c: Calendar, cfg: Config, s: Disk, rs: seq<Run>, m: int): Option<(Disk, Run)>
    requires Runs(c, cfg, s, rs)
    decreases |rs|
  {
    if rs == [] then None
    else
      var later := LastFetch(c, cfg, After(c, cfg, s, rs[0]), rs[1..], m);
      if later.Some? then later
      else if m in rs[0].got then Some((s, rs[0]))
      else None
  }

  /** A month's file is as its last fetch left it, or as it was. */
  lemma {:induction false} FromLastFetch(c: Calendar, cfg: Config, s: Disk, rs: seq<Run>, m: int)
    requires Runs(c, cfg, s, rs)
    ensures match LastFetch(c, cfg, s, rs, m)
      case None => Look(Final(c, cfg, s, rs).files, m) == Look(s.files, m)
      case Some((d, r)) =>
        && ValidRun(c, cfg, d, r) && m in r.got
        && Look(Final(c, cfg, s, rs).files, m) ==
           Some(Written(c, cfg, r.q, Look(d.files, m), Due(c, cfg, r.q, m, Look(d.files, m)).value, r.got[m]))
    decreases |rs|
  {
    hide Due, Written, Closed;
    if rs != [] {
      FromLastFetch(c, cfg, After(c, cfg, s, rs[0]), rs[1..], m);
    }
  }

  /** A run's fetch of a month asked for all of it after it had closed, and its answer is the file. */
  ghost predicate RefetchedWhole(c: Calendar, cfg: Config, d: Disk, r: Run, m: int, file: File) {
    && m in r.got && c.Last(m) + cfg.lookback < r.q.today
    && Due(c, cfg, r.q, m, Look(d.files, m)) == Some(Fetch(m, StartOf(c, cfg, m), c.Last(m), None))
    && file.rows == r.got[m].rows
  }

  /**
   * After any runs from an empty disk, a closed month that is passed over holds the
   * answer to a whole refetch made after closing exactly when the last run that fetched
   * it found it closed. When that run's write fell on its own day, that is on every day
   * but one: on the month's end plus the lookback it is still open, yet the write
   * freezes it.
   */
  lemma WholeUnlessBoundary(c: Calendar, cfg: Config, rs: seq<Run>, q: Query, m: int)
    requires Runs(c, cfg, EMPTY, rs) && ValidQuery(c, cfg, Final(c, cfg, EMPTY, rs), q) && Closed(c, cfg, q, m)
    requires Due(c, cfg, q, m, Look(Final(c, cfg, EMPTY, rs).files, m)).None?
    ensures var last, file := LastFetch(c, cfg, EMPTY, rs, m), Look(Final(c, cfg, EMPTY, rs).files, m);
      && last.Some? && file.Some?
      && var (d, r) := last.value;
      && (RefetchedWhole(c, cfg, d, r, m, file.value) <==> Closed(c, cfg, r.q, m))
      && (m in r.got && WriteDay(r.got[m].at) <= r.q.today ==> (Closed(c, cfg, r.q, m) <==> r.q.today != c.Last(m) + cfg.lookback))
  {
    FromLastFetch(c, cfg, EMPTY, rs, m);
    hide Runs, Final, LastFetch, ValidRun, ValidQuery;
    var (d, r) := LastFetch(c, cfg, EMPTY, rs, m).value;
  }

  /** Months of thirty days. */
  function ThirtyDays(): Calendar {
    Calendar(m => 30 * m, d => d / 30)
  }

  const WEEK := Config(0, 7, 3600, 0, 0)
  const EMPTY := Disk(map[], 0, 0)

  /** A first run on day 10 of month 0, which ends on day 29. */
  function DayTen(): Run {
    Run(Query(10, 1, 10 * DAY_SECONDS), map[0 := Got([Row(Some(10), 1)], 10 * DAY_SECONDS)], 10 * DAY_SECONDS)
  }

  function TenFile(): File {
    File([Row(Some(10), 1)], 10 * DAY_SECONDS, Note(10, false, 10, 10))
  }

  lemma AfterDayTen()
    ensures ThirtyDays().Valid() && ValidRun(ThirtyDays(), WEEK, EMPTY, DayTen())
    ensures After(ThirtyDays(), WEEK, EMPTY, DayTen()) == Disk(map[0 := TenFile()], 10 * DAY_SECONDS, 10)
  {
    var c := ThirtyDays();
    assert c.Valid();
    assert Due(c, WEEK, DayTen().q, 0, None) == Some(Fetch(0, 0, 10, None));
  }

  /** A second run, planned on day d at second now and written at second at. */
  function Second(d: int, now: int, at: int): Run {
    Run(Query(d, 1, now), map[0 := Got([Row(Some(20), 2)], at)], at)
  }

  lemma SecondDue(d: int, now: int)
    requires 30 <= d <= 36 && d * DAY_SECONDS <= now
    ensures var c, q := ThirtyDays(), Query(d, 1, now);
      && c.Valid() && InSpan(c, WEEK, q, 0) && !Closed(c, WEEK, q, 0) && EndOf(c, WEEK, q, 0) == 29 && Horizon(WEEK, q) == d
      && Due(c, WEEK, q, 0, Some(TenFile())) == Some(Fetch(0, 0, 29, Some(11)))
  {
    var c := ThirtyDays();
    assert c.Last(0) == 29 && c.monthOf(d) == 1;
    assert MaxVd([Row(Some(10), 1)]) == Some(10);
  }

  lemma SecondValid(d: int, now: int, at: int)
    requires 30 <= d <= 36 && d * DAY_SECONDS <= now <= at
    ensures ValidRun(ThirtyDays(), WEEK, Disk(map[0 := TenFile()], 10 * DAY_SECONDS, 10), Second(d, now, at))
  {
    var s, r := Disk(map[0 := TenFile()], 10 * DAY_SECONDS, 10), Second(d, now, at);
    SecondDue(d, now);
    assert r.q.today <= LocalDay(WEEK, now);
    hide Due, EndOf, Horizon, Closed, ThirtyDays, InSpan, LocalDay;
    assert r.got.Keys == {0} && Look(s.files, 0) == Some(TenFile());
  }

  lemma SecondWrite(d: int, now: int, at: int)
    requires 30 <= d <= 36 && d * DAY_SECONDS <= now <= at
    ensures var c, r := ThirtyDays(), Second(d, now, at);
      Written(c, WEEK, r.q, Some(TenFile()), Fetch(0, 0, 29, Some(11)), r.got[0]) ==
      File([Row(Some(10), 1), Row(Some(20), 2)], at, Note(d, false, 29, d))
  {
    SecondDue(d, now);
    hide Due, EndOf, Horizon, Closed, ThirtyDays, InSpan, LocalDay;
    assert [Row(Some(10), 1)] + [Row(Some(20), 2)] == [Row(Some(10), 1), Row(Some(20), 2)];
  }

  lemma SecondRun(d: int, now: int, at: int)
    requires 30 <= d <= 36 && d * DAY_SECONDS <= now <= at
    ensures var c, s := ThirtyDays(), Disk(map[0 := TenFile()], 10 * DAY_SECONDS, 10);
      && ValidRun(c, WEEK, s, Second(d, now, at))
      && After(c, WEEK, s, Second(d, now, at)) ==
         Disk(map[0 := File([Row(Some(10), 1), Row(Some(20), 2)], at, Note(d, false, 29, d))], at, d)
  {
    var c, s, r := ThirtyDays(), Disk(map[0 := TenFile()], 10 * DAY_SECONDS, 10), Second(d, now, at);
    SecondValid(d, now, at);
    SecondDue(d, now);
    SecondWrite(d, now, at);
    hide Due, EndOf, Horizon, Closed, ThirtyDays, InSpan, LocalDay, After, ValidRun, Written;
    assert r.got.Keys == {0} && s.files.Keys == {0} && Look(s.files, 0) == Some(TenFile());
    AfterOne(c, WEEK, s, r, 0);
  }

  lemma AfterOne(c: Calendar, cfg: Config, s: Disk, r: Run, m: int)
    requires s.files.Keys <= {m} && r.got.Keys == {m} && Due(c, cfg, r.q, m, Look(s.files, m)).Some?
    ensures After(c, cfg, s, r) ==
      Disk(map[m := Written(c, cfg, r.q, Look(s.files, m), Due(c, cfg, r.q, m, Look(s.files, m)).value, r.got[m])], r.end, r.q.today)
  {
    hide Due, Written;
    var t := After(c, cfg, s, r);
    assert t.files.Keys == {m};
  }

  /** The two runs leave month 0 never fetched whole after closing, and never planned again. */
  ghost predicate LeftIncomplete(c: Calendar, cfg: Config, rs: seq<Run>, q: Query) {
    && Runs(c, cfg, EMPTY, rs)
    && var file := Look(Final(c, cfg, EMPTY, rs).files, 0);
    && file.Some? && !file.value.note.closed && file.value.rows == [Row(Some(10), 1), Row(Some(20), 2)]
    && Closed(c, cfg, q, 0) && Due(c, cfg, q, 0, file).None?
  }

  lemma BothRuns(d: int, now: int, at: int, q: Query)
    requires 30 <= d <= 36 && d * DAY_SECONDS <= now <= at && 36 * DAY_SECONDS <= at && q.today > 36
    ensures LeftIncomplete(ThirtyDays(), WEEK, [DayTen(), Second(d, now, at)], q)
  {
    AfterDayTen();
    SecondRun(d, now, at);
    var c, s := ThirtyDays(), Disk(map[0 := TenFile()], 10 * DAY_SECONDS, 10);
    var file := File([Row(Some(10), 1), Row(Some(20), 2)], at, Note(d, false, 29, d));
    LateEnough(file, q);
    hide ValidRun, ThirtyDays, DayTen, Second, TenFile, Due, Closed;
    TwoRuns(c, WEEK, EMPTY, DayTen(), Second(d, now, at));
  }

  lemma LateEnough(file: File, q: Query)
    requires 36 * DAY_SECONDS <= file.at && q.today > 36
    ensures Closed(ThirtyDays(), WEEK, q, 0) && Due(ThirtyDays(), WEEK, q, 0, Some(file)).None?
  {
    assert ThirtyDays().Last(0) == 29;
  }

  lemma TwoRuns(c: Calendar, cfg: Config, s: Disk, r1: Run, r2: Run)
    requires ValidRun(c, cfg, s, r1)
    requires ValidRun(c, cfg, After(c, cfg, s, r1), r2)
    ensures Runs(c, cfg, s, [r1, r2]) && Final(c, cfg, s, [r1, r2]) == After(c, cfg, After(c, cfg, s, r1), r2)
  {
    hide Due, Look;
    var s1 := After(c, cfg, s, r1);
    assert [r1, r2][1..] == [r2] && [r2][1..] == [];
    assert Runs(c, cfg, s1, [r2]) && Final(c, cfg, s1, [r2]) == After(c, cfg, s1, r2);
  }

  /**
   * The boundary day: rows come in on day 10 and day 36 of a month that ends on day 29,
   * with a lookback of 7. The month was never fetched whole after closing, and is never
   * planned again: a row the service adds late for a day up to 10 stays missing.
   */
  lemma BoundaryWrite(q: Query)
    requires q.today > 36
    ensures LeftIncomplete(ThirtyDays(), WEEK, [DayTen(), Second(36, 36 * DAY_SECONDS, 36 * DAY_SECONDS)], q)
  {
    BothRuns(36, 36 * DAY_SECONDS, 36 * DAY_SECONDS, q);
  }

  /** Past midnight: planned a second before day 36 begins, written a second after. */
  lemma MidnightWrite(q: Query)
    requires q.today > 36
    ensures LeftIncomplete(ThirtyDays(), WEEK, [DayTen(), Second(35, 36 * DAY_SECONDS - 1, 36 * DAY_SECONDS + 1)], q)
  {
    BothRuns(35, 36 * DAY_SECONDS - 1, 36 * DAY_SECONDS + 1, q);
  }
}
