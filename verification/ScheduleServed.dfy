/**
 * What the monthly files hold when the service's answers for a day never change:
 * exactly the served rows up to the day fetched so far, none missing and none twice.
 */
module ScheduleServed {
  import opened Common
  import opened Schedule
  import opened ScheduleRuns

  /** The rows the service has for each day. */
  type Service = int -> multiset<Row>

  ghost predicate Dated(srv: Service) {
    forall d, r :: r in srv(d) ==> r.vd == Some(d)
  }

  ghost function Served(srv: Service, lo: int, hi: int): multiset<Row>
    decreases hi - lo
  {
    if hi < lo then multiset{} else Served(srv, lo, hi - 1) + srv(hi)
  }

  lemma {:induction false} ServedSplit(srv: Service, lo: int, mid: int, hi: int)
    requires lo <= mid + 1 && mid <= hi
    ensures Served(srv, lo, hi) == Served(srv, lo, mid) + Served(srv, mid + 1, hi)
    decreases hi - mid
  {
    if mid < hi {
      ServedSplit(srv, lo, mid, hi - 1);
    }
  }

  lemma {:induction false} ServedDates(srv: Service, lo: int, hi: int, r: Row)
    requires Dated(srv) && r in Served(srv, lo, hi)
    ensures r.vd.Some? && lo <= r.vd.value <= hi
    decreases hi - lo
  {
    if r in Served(srv, lo, hi - 1) {
      ServedDates(srv, lo, hi - 1, r);
    }
  }

  /** A run whose answers are the service's own. */
  ghost predicate Faithful(c: Calendar, cfg: Config, srv: Service, s: Disk, r: Run) {
    && ValidRun(c, cfg, s, r)
    && forall m :: m in r.got ==>
      var f := Due(c, cfg, r.q, m, Look(s.files, m)).value;
      multiset(r.got[m].rows) == Served(srv, f.Lower(), f.end)
  }

  ghost predicate FaithfulRuns(c: Calendar, cfg: Config, srv: Service, s: Disk, rs: seq<Run>)
    decreases |rs|
  {
    rs == [] || (Faithful(c, cfg, srv, s, rs[0]) && FaithfulRuns(c, cfg, srv, After(c, cfg, s, rs[0]), rs[1..]))
  }

  lemma {:induction false} FaithfulAreRuns(c: Calendar, cfg: Config, srv: Service, s: Disk, rs: seq<Run>)
    requires FaithfulRuns(c, cfg, srv, s, rs)
    ensures Runs(c, cfg, s, rs)
    decreases |rs|
  {
    if rs != [] {
      FaithfulAreRuns(c, cfg, srv, After(c, cfg, s, rs[0]), rs[1..]);
    }
  }

  /** Month m's file is exactly what is served from its start to the day reached. */
  ghost predicate Mirrors(c: Calendar, cfg: Config, srv: Service, m: int, file: File) {
    multiset(file.rows) == Served(srv, StartOf(c, cfg, m), file.note.upto)
  }

  ghost predicate AllMirror(c: Calendar, cfg: Config, srv: Service, s: Disk) {
    forall m :: m in s.files ==> Mirrors(c, cfg, srv, m, s.files[m])
  }

  lemma UptoMax(rows: seq<Row>, w: int, r: Row)
    requires MaxVd(rows) == Some(w) && r in multiset(rows) && r.vd.Some?
    ensures r.vd.value <= w
  {
    var i :| 0 <= i < |rows| && rows[i] == r;
  }

  /** Nothing is served between the watermark and the day reached, so going on from the watermark misses nothing. */
  lemma WatermarkReaches(srv: Service, lo: int, upto: int, rows: seq<Row>, w: int)
    requires Dated(srv) && multiset(rows) == Served(srv, lo, upto) && MaxVd(rows) == Some(w)
    requires lo <= w <= upto
    ensures multiset(rows) == Served(srv, lo, w)
  {
    hide MaxVd, Served;
    ServedSplit(srv, lo, w, upto);
    var rest := Served(srv, w + 1, upto);
    forall r
      ensures r !in rest
    {
      if r in rest {
        ServedDates(srv, w + 1, upto, r);
        UptoMax(rows, w, r);
      }
    }
    assert rest == multiset{};
  }

  lemma AppendedMirrors(srv: Service, lo: int, upto: int, rows: seq<Row>, w: int, more: seq<Row>, end: int)
    requires Dated(srv) && multiset(rows) == Served(srv, lo, upto) && MaxVd(rows) == Some(w)
    requires lo <= w <= upto && w <= end && multiset(more) == Served(srv, w + 1, end)
    ensures multiset(rows + more) == Served(srv, lo, end)
  {
    hide MaxVd, Served;
    WatermarkReaches(srv, lo, upto, rows, w);
    ServedSplit(srv, lo, w, end);
  }

  lemma WatermarkInRange(c: Calendar, cfg: Config, s: Disk, m: int, file: File, w: int)
    requires FileOk(c, cfg, s, m, file) && MaxVd(file.rows) == Some(w)
    ensures StartOf(c, cfg, m) <= w <= file.note.upto
  {
  }

  lemma DueShape(c: Calendar, cfg: Config, q: Query, m: int, file: Option<File>)
    requires Due(c, cfg, q, m, file).Some?
    ensures var f := Due(c, cfg, q, m, file).value;
      && f.ym == m && f.start == StartOf(c, cfg, m) && f.end == EndOf(c, cfg, q, m)
      && (f.inc.Some? ==> file.Some? && MaxVd(file.value.rows) == Some(f.inc.value - 1) && f.inc.value <= f.end)
  {
  }

  lemma WrittenMirrors(c: Calendar, cfg: Config, srv: Service, s: Disk, r: Run, m: int)
    requires Dated(srv) && Faithful(c, cfg, srv, s, r) && DiskOk(c, cfg, s) && AllMirror(c, cfg, srv, s)
    requires m in r.got
    ensures Mirrors(c, cfg, srv, m, After(c, cfg, s, r).files[m])
  {
    hide Served, MaxVd, Due, StartOf, EndOf, FileOk, Closed, Answers;
    DueShape(c, cfg, r.q, m, Look(s.files, m));
    var f := Due(c, cfg, r.q, m, Look(s.files, m)).value;
    if f.inc.Some? {
      var w := f.inc.value - 1;
      WatermarkInRange(c, cfg, s, m, s.files[m], w);
      AppendedMirrors(srv, f.start, s.files[m].note.upto, s.files[m].rows, w, r.got[m].rows, f.end);
    }
  }

  lemma RunMirrors(c: Calendar, cfg: Config, srv: Service, s: Disk, r: Run)
    requires Dated(srv) && Faithful(c, cfg, srv, s, r) && DiskOk(c, cfg, s) && AllMirror(c, cfg, srv, s)
    ensures AllMirror(c, cfg, srv, After(c, cfg, s, r))
  {
    forall m | m in After(c, cfg, s, r).files
      ensures Mirrors(c, cfg, srv, m, After(c, cfg, s, r).files[m])
    {
      if m in r.got {
        WrittenMirrors(c, cfg, srv, s, r, m);
      }
    }
  }

  /** Over any runs, whole or cut short, every file stays exactly the served rows up to the day it reached. */
  lemma {:induction false} RunsMirror(c: Calendar, cfg: Config, srv: Service, s: Disk, rs: seq<Run>)
    requires Dated(srv) && FaithfulRuns(c, cfg, srv, s, rs) && DiskOk(c, cfg, s) && AllMirror(c, cfg, srv, s)
    ensures Runs(c, cfg, s, rs) && DiskOk(c, cfg, Final(c, cfg, s, rs)) && AllMirror(c, cfg, srv, Final(c, cfg, s, rs))
    decreases |rs|
  {
    FaithfulAreRuns(c, cfg, srv, s, rs);
    if rs != [] {
      RunKeeps(c, cfg, s, rs[0]);
      RunMirrors(c, cfg, srv, s, rs[0]);
      RunsMirror(c, cfg, srv, After(c, cfg, s, rs[0]), rs[1..]);
    }
  }

  /**
   * After a run, a month in its span whose fetch came back, or was not due and not held
   * back as just written, is on file as served, and up to the day then available exactly
   * when it was fetched now, or is open, or its last plan saw it closed or reached its
   * end. That is so of every file whose writing took less than the lookback.
   */
  lemma CaughtUp(c: Calendar, cfg: Config, srv: Service, s: Disk, r: Run, m: int)
    requires Dated(srv) && Faithful(c, cfg, srv, s, r) && DiskOk(c, cfg, s) && AllMirror(c, cfg, srv, s)
    requires InSpan(c, cfg, r.q, m) && StartOf(c, cfg, m) <= EndOf(c, cfg, r.q, m)
    requires m in r.got || Due(c, cfg, r.q, m, Look(s.files, m)).None?
    requires Closed(c, cfg, r.q, m) || !HeldBack(cfg, r.q, Look(s.files, m))
    ensures m in After(c, cfg, s, r).files
    ensures var file := After(c, cfg, s, r).files[m];
      && multiset(file.rows) == Served(srv, StartOf(c, cfg, m), file.note.upto)
      && (EndOf(c, cfg, r.q, m) <= file.note.upto <==>
            m in r.got || !Closed(c, cfg, r.q, m) || file.note.closed || c.Last(m) <= file.note.horizon)
      && (m !in r.got && WriteDay(file.at) < file.note.day + cfg.lookback ==> EndOf(c, cfg, r.q, m) <= file.note.upto)
  {
    RunMirrors(c, cfg, srv, s, r);
    hide Served, Faithful, AllMirror, DiskOk;
    if m in r.got {
      DueShape(c, cfg, r.q, m, Look(s.files, m));
    } else if Closed(c, cfg, r.q, m) {
      PassedUpto(c, cfg, s, r.q, m);
    } else {
      OpenUpto(c, cfg, s, r.q, m);
    }
  }

  lemma PassedUpto(c: Calendar, cfg: Config, s: Disk, q: Query, m: int)
    requires DiskOk(c, cfg, s) && Closed(c, cfg, q, m) && Due(c, cfg, q, m, Look(s.files, m)).None?
    ensures m in s.files
    ensures var n := s.files[m].note;
      && (EndOf(c, cfg, q, m) <= n.upto <==> n.closed || c.Last(m) <= n.horizon)
      && (WriteDay(s.files[m].at) < n.day + cfg.lookback ==> EndOf(c, cfg, q, m) <= n.upto)
  {
    hide WriteDay;
  }

  lemma OpenUpto(c: Calendar, cfg: Config, s: Disk, q: Query, m: int)
    requires DiskOk(c, cfg, s) && !Closed(c, cfg, q, m) && Due(c, cfg, q, m, Look(s.files, m)).None?
    requires !HeldBack(cfg, q, Look(s.files, m)) && StartOf(c, cfg, m) <= EndOf(c, cfg, q, m)
    ensures m in s.files && EndOf(c, cfg, q, m) <= s.files[m].note.upto
  {
    hide EndOf, StartOf;
    var w := MaxVd(s.files[m].rows);
    assert EndOf(c, cfg, q, m) <= w.value;
  }
}
