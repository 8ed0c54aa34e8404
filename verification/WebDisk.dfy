/**
 * The article store's files and every single step the program makes on them. A crash
 * may fall between any two steps; line appends and renames are atomic, removing a
 * directory is not.
 */
module WebDisk {
  import opened Common

  const STAGING: string := ".staging"

  /** A listed post; dir is filled in when it is committed. */
  datatype Entry = Entry(pid: string, title: Option<string>, createTime: Option<string>, dir: Option<string>)

  /** A directory: a Doc once everything its commit was given is in it, a Draft before that or when partly removed. */
  datatype Content = Draft(article: Option<string>, files: map<string, string>) | Doc(text: string, assets: map<string, string>)

  datatype Disk = Disk(index: seq<Entry>, pending: seq<Entry>, dirs: map<string, Content>, staging: map<string, Content>)

  // ---- directory names ----

  predicate Forbidden(c: char) {
    c in {'/', '\\', ':', '*', '?', '"', '<', '>', '|', '\r', '\n', '\t'}
  }

  function Cleaned(s: string): string {
    seq(|s|, i requires 0 <= i < |s| => if Forbidden(s[i]) then '_' else s[i])
  }

  function StripLeft(s: string, c: char): string {
    if s != [] && s[0] == c then StripLeft(s[1..], c) else s
  }

  function StripRight(s: string, c: char): string {
    if s != [] && s[|s| - 1] == c then StripRight(s[..|s| - 1], c) else s
  }

  function Strip(s: string, c: char): string {
    StripRight(StripLeft(s, c), c)
  }

  function SafeName(title: Option<string>): string {
    var s := Strip(Strip(Cleaned(if title.Some? then title.value else ""), ' '), '.');
    if s == "" then "_" else if |s| > 80 then s[..80] else s
  }

  ghost predicate EndsIn(s: string, c: char) {
    s != "" && (s[0] == c || s[|s| - 1] == c)
  }

  lemma {:induction false} StripRightFacts(s: string, c: char)
    ensures var r := StripRight(s, c); r <= s && (r != "" ==> r[|r| - 1] != c) && (!EndsIn(s, c) ==> r == s)
  {
    if s != [] && s[|s| - 1] == c {
      StripRightFacts(s[..|s| - 1], c);
    }
  }

  lemma {:induction false} StripLeftFacts(s: string, c: char)
    ensures var r := StripLeft(s, c); |r| <= |s| && r == s[|s| - |r|..] && (r != "" ==> r[0] != c) && (!EndsIn(s, c) ==> r == s)
  {
    if s != [] && s[0] == c {
      StripLeftFacts(s[1..], c);
    }
  }

  lemma StripFacts(s: string, c: char)
    ensures var r := Strip(s, c); !EndsIn(r, c) && (forall x :: x in r ==> x in s) && (!EndsIn(s, c) ==> r == s)
  {
    StripLeftFacts(s, c);
    StripRightFacts(StripLeft(s, c), c);
  }

  /** A title that is a file name as it stands. */
  ghost predicate GoodName(s: string) {
    && 0 < |s| <= 80 && !EndsIn(s, ' ') && !EndsIn(s, '.')
    && forall i :: 0 <= i < |s| ==> s[i] !in {'/', '\\', ':', '*', '?', '"', '<', '>', '|', '\r', '\n', '\t'}
  }

  /** The name of any title is nonempty, short, free of what a file name may not hold, and does not begin with a dot; a good name is kept. */
  lemma SafeNameFacts(title: Option<string>)
    ensures var r := SafeName(title);
      && 0 < |r| <= 80 && r[0] != '.'
      && (forall i :: 0 <= i < |r| ==> r[i] !in {'/', '\\', ':', '*', '?', '"', '<', '>', '|', '\r', '\n', '\t'})
      && (title.Some? && GoodName(title.value) ==> r == title.value)
  {
    var t := if title.Some? then title.value else "";
    var c := Cleaned(t);
    assert forall x :: x in c ==> !Forbidden(x);
    StripFacts(c, ' ');
    StripFacts(Strip(c, ' '), '.');
    var s := Strip(Strip(c, ' '), '.');
    hide Strip, Cleaned;
    assert forall i :: 0 <= i < |s| ==> s[i] in s;
    if GoodName(t) {
      CleanedSame(t);
    }
  }

  lemma CleanedSame(t: string)
    requires forall i :: 0 <= i < |t| ==> !Forbidden(t[i])
    ensures Cleaned(t) == t
  {
  }

  function DateOf(e: Entry): string {
    var t := if e.createTime.Some? && e.createTime.value != "" then e.createTime.value else "0000-00-00";
    if |t| > 10 then t[..10] else t
  }

  function EntryDir(e: Entry): string {
    DateOf(e) + "_" + SafeName(e.title) + "_" + e.pid
  }

  /** What follows the last underscore. */
  function PidOfDir(name: string): Option<string> {
    if name == "" then None
    else if name[|name| - 1] == '_' then Some("")
    else match PidOfDir(name[..|name| - 1])
      case None => None
      case Some(p) => Some(p + [name[|name| - 1]])
  }

  predicate Plain(pid: string) {
    '_' !in pid
  }

  lemma {:induction false} LastPart(pre: string, pid: string)
    requires Plain(pid)
    ensures PidOfDir(pre + "_" + pid) == Some(pid)
    decreases |pid|
  {
    var name := pre + "_" + pid;
    if pid != "" {
      var n := |pid| - 1;
      LastPart(pre, pid[..n]);
      assert name[..|name| - 1] == pre + "_" + pid[..n];
      assert pid == pid[..n] + [pid[n]];
    }
  }

  /** A committed directory's name gives back its post, whatever its date and title. */
  lemma DirRoundTrip(e: Entry)
    requires Plain(e.pid)
    ensures PidOfDir(EntryDir(e)) == Some(e.pid)
  {
    LastPart(DateOf(e) + "_" + SafeName(e.title), e.pid);
    assert EntryDir(e) == DateOf(e) + "_" + SafeName(e.title) + "_" + e.pid;
  }

  /** No committed directory can be taken for the staging area. */
  lemma NotStaging(e: Entry)
    ensures EntryDir(e) != STAGING
  {
    assert EntryDir(e)[|DateOf(e)|] == '_';
    assert '_' in EntryDir(e);
  }

  // ---- what a disk must satisfy whenever the program may stop ----

  ghost function Pids(rows: seq<Entry>): set<string> {
    set i | 0 <= i < |rows| :: rows[i].pid
  }

  /** The posts the disk knows of. */
  ghost function Known(d: Disk): set<string> {
    Pids(d.index) + Pids(d.pending)
  }

  ghost predicate PlainPids(rows: seq<Entry>) {
    forall i :: 0 <= i < |rows| ==> Plain(rows[i].pid)
  }

  ghost predicate OncePerPid(rows: seq<Entry>) {
    forall i, j :: 0 <= i < j < |rows| ==> rows[i].pid != rows[j].pid
  }

  /** A directory of an indexed post. */
  ghost predicate Indexed(d: Disk, name: string) {
    exists i :: 0 <= i < |d.index| && PidOfDir(name) == Some(d.index[i].pid)
  }

  /** Every index line has its complete directory, and no post is indexed twice. */
  ghost predicate CrashOk(d: Disk) {
    && PlainPids(d.index) && PlainPids(d.pending) && OncePerPid(d.index)
    && (forall i :: 0 <= i < |d.index| ==>
          && d.index[i].dir == Some(EntryDir(d.index[i]))
          && EntryDir(d.index[i]) in d.dirs && d.dirs[EntryDir(d.index[i])].Doc?)
  }

  /** A post's directories on disk all bear the name it would be committed under. */
  ghost predicate OneName(d: Disk, e: Entry) {
    forall name :: name in d.dirs && PidOfDir(name) == Some(e.pid) ==> name == EntryDir(e)
  }

  /** No indexed post has a second directory. */
  ghost predicate Single(d: Disk) {
    forall i :: 0 <= i < |d.index| ==> OneName(d, d.index[i])
  }

  /** Nothing but committed directories. */
  ghost predicate Tidy(d: Disk) {
    forall name :: name in d.dirs ==> Indexed(d, name)
  }

  // ---- the steps ----

  ghost predicate StageStep(d: Disk, d': Disk) {
    d' == d.(staging := d'.staging)
  }

  ghost predicate QueueLine(d: Disk, d': Disk, e: Entry) {
    Plain(e.pid) && d' == d.(pending := d.pending + [e])
  }

  ghost predicate QueueRewrite(d: Disk, d': Disk) {
    && d' == d.(pending := d'.pending) && PlainPids(d'.pending)
    && Pids(d.pending) - Pids(d.index) == Pids(d'.pending)
  }

  /** One directory damaged or gone. */
  ghost predicate Removing(d: Disk, d': Disk, name: string, left: Content) {
    && name in d.dirs && !Indexed(d, name)
    && (d' == d.(dirs := d.dirs[name := left]) || d' == d.(dirs := d.dirs - {name}))
  }

  ghost predicate Rename(d: Disk, d': Disk, e: Entry) {
    && Plain(e.pid) && !Indexed(d, EntryDir(e)) && EntryDir(e) !in d.dirs
    && e.pid in d.staging && d.staging[e.pid].Doc?
    && d' == d.(dirs := d.dirs[EntryDir(e) := d.staging[e.pid]], staging := d.staging - {e.pid})
  }

  ghost predicate IndexLine(d: Disk, d': Disk, e: Entry) {
    && Plain(e.pid) && e.pid !in Pids(d.index) && e.dir == Some(EntryDir(e))
    && EntryDir(e) in d.dirs && d.dirs[EntryDir(e)].Doc?
    && d' == d.(index := d.index + [e])
  }

  ghost predicate FileStep(d: Disk, d': Disk) {
    || StageStep(d, d')
    || (exists e :: QueueLine(d, d', e))
    || QueueRewrite(d, d')
    || (exists name, left :: Removing(d, d', name, left))
    || (exists e :: Rename(d, d', e))
    || (exists e :: IndexLine(d, d', e))
  }

  /** Everything indexed before is indexed after, with the same directory. */
  ghost predicate Keeps(d: Disk, d': Disk) {
    && d.index <= d'.index && Known(d) <= Known(d')
    && forall i :: 0 <= i < |d.index| && EntryDir(d.index[i]) in d.dirs ==>
      && EntryDir(d.index[i]) in d'.dirs && d'.dirs[EntryDir(d.index[i])] == d.dirs[EntryDir(d.index[i])]
  }

  lemma PidIn(rows: seq<Entry>, i: nat)
    requires i < |rows|
    ensures rows[i].pid in Pids(rows)
  {
  }

  lemma PidsSnoc(rows: seq<Entry>, e: Entry)
    ensures Pids(rows + [e]) == Pids(rows) + {e.pid}
  {
    var more := rows + [e];
    forall p
      ensures p in Pids(more) <==> p in Pids(rows) + {e.pid}
    {
      if p in Pids(rows) {
        var i :| 0 <= i < |rows| && rows[i].pid == p;
        assert more[i].pid == p;
      }
      assert more[|rows|].pid == e.pid;
    }
  }

  lemma QueueLineKeeps(d: Disk, d': Disk, e: Entry)
    requires CrashOk(d) && QueueLine(d, d', e)
    ensures CrashOk(d') && Keeps(d, d')
  {
    PidsSnoc(d.pending, e);
  }

  lemma RewriteKeeps(d: Disk, d': Disk)
    requires CrashOk(d) && QueueRewrite(d, d')
    ensures CrashOk(d') && Keeps(d, d')
  {
  }

  lemma RemovingKeeps(d: Disk, d': Disk, name: string, left: Content)
    requires CrashOk(d) && Removing(d, d', name, left)
    ensures CrashOk(d') && Keeps(d, d')
  {
    forall i | 0 <= i < |d.index|
      ensures EntryDir(d.index[i]) != name
    {
      DirRoundTrip(d.index[i]);
    }
  }

  lemma RenameKeeps(d: Disk, d': Disk, e: Entry)
    requires CrashOk(d) && Rename(d, d', e)
    ensures CrashOk(d') && Keeps(d, d')
  {
    DirRoundTrip(e);
  }

  lemma IndexLineKeeps(d: Disk, d': Disk, e: Entry)
    requires CrashOk(d) && IndexLine(d, d', e)
    ensures CrashOk(d') && Keeps(d, d')
  {
    PidsSnoc(d.index, e);
    forall i | 0 <= i < |d.index|
      ensures d.index[i].pid != e.pid
    {
      PidIn(d.index, i);
    }
  }

  /** Whatever step comes next, the disk stays good and loses nothing. */
  lemma StepKeeps(d: Disk, d': Disk)
    requires CrashOk(d) && FileStep(d, d')
    ensures CrashOk(d') && Keeps(d, d')
  {
    hide CrashOk, Keeps;
    if e :| QueueLine(d, d', e) {
      QueueLineKeeps(d, d', e);
    } else if QueueRewrite(d, d') {
      RewriteKeeps(d, d');
    } else if name, left :| Removing(d, d', name, left) {
      RemovingKeeps(d, d', name, left);
    } else if e :| Rename(d, d', e) {
      RenameKeeps(d, d', e);
    } else if e :| IndexLine(d, d', e) {
      IndexLineKeeps(d, d', e);
    } else {
      StageKeeps(d, d');
    }
  }

  lemma StageKeeps(d: Disk, d': Disk)
    requires CrashOk(d) && StageStep(d, d')
    ensures CrashOk(d') && Keeps(d, d')
  {
  }

  /** Disks the program passed through, one step after the other. */
  ghost predicate Chain(ds: seq<Disk>) {
    forall i :: 0 <= i < |ds| - 1 ==> FileStep(ds[i], ds[i + 1])
  }

  lemma KeepsSame(d: Disk)
    ensures Keeps(d, d)
  {
  }

  lemma ChainStep(ds: seq<Disk>, j: nat)
    requires Chain(ds) && 0 < j < |ds|
    ensures FileStep(ds[j - 1], ds[j])
  {
    hide FileStep;
    assert ds[j] == ds[j - 1 + 1];
  }

  lemma KeepsTrans(a: Disk, b: Disk, c: Disk)
    requires Keeps(a, b) && Keeps(b, c)
    ensures Keeps(a, c)
  {
  }

  /**
   * At every point of any history, through any crashes and restarts: every index line
   * has its complete directory, unchanged ever since, and no known post is lost.
   */
  lemma {:induction false} HistoryKeeps(ds: seq<Disk>, i: nat, j: nat)
    requires Chain(ds) && i <= j < |ds| && CrashOk(ds[i])
    ensures CrashOk(ds[j]) && Keeps(ds[i], ds[j])
    decreases j - i
  {
    hide CrashOk, Keeps, FileStep, Chain;
    if i == j {
      KeepsSame(ds[i]);
    } else {
      HistoryKeeps(ds, i, j - 1);
      ChainStep(ds, j);
      StepKeeps(ds[j - 1], ds[j]);
      KeepsTrans(ds[i], ds[j - 1], ds[j]);
    }
  }

  // ---- second directories ----

  /** A tidy disk has no directory at all of a post not indexed. */
  lemma TidyOneName(d: Disk, e: Entry)
    requires Tidy(d) && e.pid !in Pids(d.index)
    ensures OneName(d, e)
  {
    forall name | name in d.dirs
      ensures PidOfDir(name) != Some(e.pid)
    {
      var i :| 0 <= i < |d.index| && PidOfDir(name) == Some(d.index[i].pid);
      PidIn(d.index, i);
    }
  }

  lemma RenameSingle(d: Disk, d': Disk, e: Entry)
    requires Single(d) && Rename(d, d', e)
    ensures Single(d')
  {
    DirRoundTrip(e);
    forall i | 0 <= i < |d.index|
      ensures OneName(d', d.index[i])
    {
      assert OneName(d, d.index[i]);
      assert PidOfDir(EntryDir(e)) != Some(d.index[i].pid);
    }
  }

  lemma SameSingle(d: Disk, d': Disk)
    requires Single(d) && d'.index == d.index && d'.dirs.Keys <= d.dirs.Keys
    ensures Single(d')
  {
    hide EntryDir, PidOfDir;
    forall i | 0 <= i < |d.index|
      ensures OneName(d', d.index[i])
    {
      assert OneName(d, d.index[i]);
    }
  }

  lemma IndexLineSingle(d: Disk, d': Disk, e: Entry)
    requires Single(d) && IndexLine(d, d', e)
    ensures Single(d') <==> OneName(d, e)
  {
    hide EntryDir, PidOfDir;
    assert d'.index[|d.index|] == e;
    if OneName(d, e) {
      forall i | 0 <= i < |d'.index|
        ensures OneName(d', d'.index[i])
      {
        if i < |d.index| { assert OneName(d, d.index[i]); }
      }
    }
    if Single(d') {
      assert OneName(d', d'.index[|d.index|]);
    }
  }

  /** A step gives an indexed post a second directory only by indexing one that has two names. */
  lemma StepSingle(d: Disk, d': Disk)
    requires FileStep(d, d') && Single(d)
    ensures Single(d') <==> forall i :: |d.index| <= i < |d'.index| ==> OneName(d, d'.index[i])
  {
    hide Single, OneName, Indexed, EntryDir;
    if e :| Rename(d, d', e) {
      RenameSingle(d, d', e);
    } else if e :| IndexLine(d, d', e) {
      IndexLineSingle(d, d', e);
      assert d'.index[|d.index|] == e;
    } else {
      SameSingle(d, d');
    }
  }

  const EMPTY := Disk([], [], map[], map[])

  lemma EmptyGood()
    ensures CrashOk(EMPTY) && Tidy(EMPTY) && Single(EMPTY)
  {
  }

  /** Every history that starts from nothing. */
  lemma FromEmpty(ds: seq<Disk>, j: nat)
    requires Chain(ds) && j < |ds| && ds[0] == EMPTY
    ensures CrashOk(ds[j])
  {
    hide *;
    EmptyGood();
    HistoryKeeps(ds, 0, j);
  }
}
