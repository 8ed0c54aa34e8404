/**
 * When a day's data counts as complete: from its own availability hour on. What a plan
 * asks for, told from the clock alone, and what is on file when the service's answers
 * for a day are final only from then on.
 */
module ScheduleAvail {
  import opened Common
  import opened Schedule
  import opened ScheduleRuns
  import opened ScheduleServed

  /** Day d is complete at the moment of a plan. */
  predicate Complete(cfg: Config, q: Query, d: int) {
    d < q.today || (d == q.today && q.hour >= cfg.availHour)
  }

  /** A month that may still change: it ended no more than lookback days ago, or has not. */
  predicate OpenMonth(c: Calendar, cfg: Config, q: Query, m: int) {
    c.first(m + 1) - 1 >= q.today - cfg.lookback
  }

  /** A day of month m from the first day asked for on. */
  predicate Asked(c: Calendar, cfg: Config, m: int, d: int) {
    c.first(m) <= d < c.first(m + 1) && cfg.start <= d
  }

  /** A day past everything dated on file; with no file, an unreadable one or one from the future, any day. */
  ghost predicate Beyond(q: Query, file: Option<File>, d: int) {
    || file.None? || q.now < file.value.at
    || forall i :: 0 <= i < |file.value.rows| && file.value.rows[i].vd.Some? ==> file.value.rows[i].vd.value < d
  }

  /**
   * What an open month's fetch asks for, exactly: the complete days of the month, from
   * the first one asked for or the one after the last on file, to the last complete one.
   */
  lemma FetchDays(c: Calendar, cfg: Config, q: Query, m: int, file: Option<File>, d: int)
    requires Due(c, cfg, q, m, file).Some? && OpenMonth(c, cfg, q, m)
    ensures var f := Due(c, cfg, q, m, file).value;
      f.start <= d && f.Lower() <= d <= f.end <==> Asked(c, cfg, m, d) && Complete(cfg, q, d) && Beyond(q, file, d)
  {
  }

  /** And a closed month's: all of it. */
  lemma ClosedDays(c: Calendar, cfg: Config, q: Query, m: int, file: Option<File>, d: int)
    requires Due(c, cfg, q, m, file).Some? && !OpenMonth(c, cfg, q, m)
    ensures var f := Due(c, cfg, q, m, file).value; f.start <= d && f.Lower() <= d <= f.end <==> Asked(c, cfg, m, d)
  {
  }

  /** An open month is planned if and only if it was not written within the window and has a day to ask for. */
  lemma PlannedIff(c: Calendar, cfg: Config, q: Query, m: int, file: Option<File>)
    requires OpenMonth(c, cfg, q, m)
    ensures Due(c, cfg, q, m, file).Some? <==>
      && (file.None? || q.now < file.value.at || q.now - file.value.at >= cfg.dedup)
      && exists d :: Asked(c, cfg, m, d) && Complete(cfg, q, d) && Beyond(q, file, d)
  {
    var due := Due(c, cfg, q, m, file);
    if due.Some? {
      FetchDays(c, cfg, q, m, file, due.value.end);
    }
    if d :| Asked(c, cfg, m, d) && Complete(cfg, q, d) && Beyond(q, file, d) {
      assert StartOf(c, cfg, m) <= d <= EndOf(c, cfg, q, m);
    }
  }

  /** Before the hour today's data is not asked for; from the hour on, an open current month without a file is fetched up to today. */
  lemma ByTheHour(c: Calendar, cfg: Config, q: Query, m: int, file: Option<File>)
    requires OpenMonth(c, cfg, q, m)
    ensures q.hour < cfg.availHour && Due(c, cfg, q, m, file).Some? ==> Due(c, cfg, q, m, file).value.end < q.today
    ensures q.hour >= cfg.availHour && file.None? && Asked(c, cfg, m, q.today) ==>
      Due(c, cfg, q, m, file).Some? && Due(c, cfg, q, m, file).value.end == q.today
  {
  }

  // ---- a service whose days become final ----

  /** The second from which on day d is complete. */
  function FinalFrom(cfg: Config, d: int): int {
    d * DAY_SECONDS + cfg.availHour * 3600 - cfg.offset
  }

  /** A service: each day's final rows, and what it answers for a day at a second. */
  datatype Feed = Feed(final: Service, at: (int, int) -> multiset<Row>) {
    /** Before a day is complete the answers may be anything. */
    ghost predicate Settles(cfg: Config) {
      forall d, t :: FinalFrom(cfg, d) <= t ==> at(d, t) == final(d)
    }
  }

  ghost function Answered(feed: Feed, lo: int, hi: int, t: int): multiset<Row>
    decreases hi - lo
  {
    if hi < lo then multiset{} else Answered(feed, lo, hi - 1, t) + feed.at(hi, t)
  }

  /** The hour is that of the clock. */
  predicate Timely(cfg: Config, q: Query) {
    q.hour == (q.now + cfg.offset) % DAY_SECONDS / 3600
  }

  /** A run whose answers are the service's, each of some second between plan and write. */
  ghost predicate Truthful(c: Calendar, cfg: Config, feed: Feed, s: Disk, r: Run) {
    && ValidRun(c, cfg, s, r) && Timely(cfg, r.q)
    && forall m :: m in r.got ==> AnsweredFor(feed, r, m, Due(c, cfg, r.q, m, Look(s.files, m)).value)
  }

  ghost predicate AnsweredFor(feed: Feed, r: Run, m: int, f: Fetch)
    requires m in r.got
  {
    exists t :: r.q.now <= t <= r.got[m].at && multiset(r.got[m].rows) == Answered(feed, f.Lower(), f.end, t)
  }

  ghost predicate TruthfulRuns(c: Calendar, cfg: Config, feed: Feed, s: Disk, rs: seq<Run>)
    decreases |rs|
  {
    rs == [] || (Truthful(c, cfg, feed, s, rs[0]) && TruthfulRuns(c, cfg, feed, After(c, cfg, s, rs[0]), rs[1..]))
  }

  lemma {:induction false} AnsweredFinal(cfg: Config, feed: Feed, lo: int, hi: int, t: int)
    requires feed.Settles(cfg) && forall d :: lo <= d <= hi ==> FinalFrom(cfg, d) <= t
    ensures Answered(feed, lo, hi, t) == Served(feed.final, lo, hi)
    decreases hi - lo
  {
    if lo <= hi {
      AnsweredFinal(cfg, feed, lo, hi - 1, t);
    }
  }

  /** What a plan takes for complete is complete by the clock. */
  lemma CompleteByClock(cfg: Config, q: Query, d: int)
    requires cfg.Valid() && q.today <= LocalDay(cfg, q.now) && Timely(cfg, q) && Complete(cfg, q, d)
    ensures FinalFrom(cfg, d) <= q.now
  {
    var local := q.now + cfg.offset;
    assert local == LocalDay(cfg, q.now) * DAY_SECONDS + local % DAY_SECONDS;
  }

  /** Everything a plan asks for is final. */
  lemma AskedIsFinal(c: Calendar, cfg: Config, s: Disk, q: Query, m: int, d: int)
    requires ValidQuery(c, cfg, s, q) && Timely(cfg, q) && cfg.lookback >= 0
    requires Due(c, cfg, q, m, Look(s.files, m)).Some?
    requires var f := Due(c, cfg, q, m, Look(s.files, m)).value; f.Lower() <= d <= f.end
    ensures FinalFrom(cfg, d) <= q.now
  {
    assert Complete(cfg, q, d);
    hide Due;
    CompleteByClock(cfg, q, d);
  }

  /** So the answers are the final rows, although the service may answer anything before. */
  lemma TruthfulIsFaithful(c: Calendar, cfg: Config, feed: Feed, s: Disk, r: Run)
    requires Truthful(c, cfg, feed, s, r) && feed.Settles(cfg) && cfg.lookback >= 0
    ensures Faithful(c, cfg, feed.final, s, r)
  {
    hide Due, Served, Answered;
    forall m | m in r.got
      ensures var f := Due(c, cfg, r.q, m, Look(s.files, m)).value; multiset(r.got[m].rows) == Served(feed.final, f.Lower(), f.end)
    {
      var f := Due(c, cfg, r.q, m, Look(s.files, m)).value;
      var t :| r.q.now <= t <= r.got[m].at && multiset(r.got[m].rows) == Answered(feed, f.Lower(), f.end, t);
      forall d | f.Lower() <= d <= f.end
        ensures FinalFrom(cfg, d) <= t
      {
        AskedIsFinal(c, cfg, s, r.q, m, d);
      }
      AnsweredFinal(cfg, feed, f.Lower(), f.end, t);
    }
  }

  lemma {:induction false} TruthfulAreFaithful(c: Calendar, cfg: Config, feed: Feed, s: Disk, rs: seq<Run>)
    requires TruthfulRuns(c, cfg, feed, s, rs) && feed.Settles(cfg) && cfg.lookback >= 0
    ensures FaithfulRuns(c, cfg, feed.final, s, rs)
    decreases |rs|
  {
    if rs != [] {
      TruthfulIsFaithful(c, cfg, feed, s, rs[0]);
      hide Truthful, Faithful;
      TruthfulAreFaithful(c, cfg, feed, After(c, cfg, s, rs[0]), rs[1..]);
    }
  }

  /** Every file reaches only days that are complete. */
  ghost predicate ReachesFinal(cfg: Config, s: Disk) {
    forall m :: m in s.files ==> FinalFrom(cfg, s.files[m].note.upto) <= s.clock
  }

  lemma NotEmpty(c: Calendar, cfg: Config, s: Disk, q: Query, m: int)
    requires ValidQuery(c, cfg, s, q) && InSpan(c, cfg, q, m) && Due(c, cfg, q, m, Look(s.files, m)).Some?
    ensures var f := Due(c, cfg, q, m, Look(s.files, m)).value; f.Lower() <= f.end
  {
    if Closed(c, cfg, q, m) {
      MonthAfter(c, cfg.start, m);
    }
  }

  lemma MonthAfter(c: Calendar, d: int, m: int)
    requires c.Valid() && c.monthOf(d) <= m
    ensures d <= c.Last(m) && c.first(m) <= c.Last(m)
  {
    if c.monthOf(d) < m {
      assert c.first(c.monthOf(d) + 1) <= c.first(m);
    }
  }

  lemma RunReaches(c: Calendar, cfg: Config, feed: Feed, s: Disk, r: Run)
    requires Truthful(c, cfg, feed, s, r) && cfg.lookback >= 0 && ReachesFinal(cfg, s)
    ensures ReachesFinal(cfg, After(c, cfg, s, r))
  {
    forall m | m in After(c, cfg, s, r).files
      ensures FinalFrom(cfg, After(c, cfg, s, r).files[m].note.upto) <= r.end
    {
      if m in r.got {
        DueShape(c, cfg, r.q, m, Look(s.files, m));
        NotEmpty(c, cfg, s, r.q, m);
        hide Due;
        var f := Due(c, cfg, r.q, m, Look(s.files, m)).value;
        AskedIsFinal(c, cfg, s, r.q, m, f.end);
      }
    }
  }

  lemma {:induction false} RunsReach(c: Calendar, cfg: Config, feed: Feed, s: Disk, rs: seq<Run>)
    requires TruthfulRuns(c, cfg, feed, s, rs) && cfg.lookback >= 0 && ReachesFinal(cfg, s)
    ensures Runs(c, cfg, s, rs) && ReachesFinal(cfg, Final(c, cfg, s, rs))
    decreases |rs|
  {
    if rs != [] {
      RunReaches(c, cfg, feed, s, rs[0]);
      hide ReachesFinal;
      RunsReach(c, cfg, feed, After(c, cfg, s, rs[0]), rs[1..]);
    }
  }

  /**
   * Over any runs from nothing, against a service that may answer anything for a day
   * until its availability hour: every file holds exactly the final rows of its days up
   * to the one reached, and that one is complete.
   */
  lemma RunsSettle(c: Calendar, cfg: Config, feed: Feed, rs: seq<Run>, m: int)
    requires TruthfulRuns(c, cfg, feed, EMPTY, rs) && feed.Settles(cfg) && Dated(feed.final) && cfg.lookback >= 0
    ensures Runs(c, cfg, EMPTY, rs)
    ensures var d := Final(c, cfg, EMPTY, rs); m in d.files ==>
      && multiset(d.files[m].rows) == Served(feed.final, StartOf(c, cfg, m), d.files[m].note.upto)
      && FinalFrom(cfg, d.files[m].note.upto) <= d.clock
  {
    TruthfulAreFaithful(c, cfg, feed, EMPTY, rs);
    RunsReach(c, cfg, feed, EMPTY, rs);
    RunsMirror(c, cfg, feed.final, EMPTY, rs);
    hide TruthfulRuns, FaithfulRuns, Runs, Final, Served, DiskOk, Dated;
  }
}
