/**
 * The publish protocol as a step system: install and realtime tasks interleave statement by
 * statement under the writer lock of app/core/database.py, while readers see committed tables.
 */
module Protocol {
  import opened Prelude
  import opened Calendar
  import opened Schema
  import opened Observations
  import opened Realtime
  import opened Commits
  import opened Histories

  datatype TaskId = TaskId(number: nat)

  /** Where an install is: it holds the lock from its first statement to its end. */
  datatype InstallPhase =
    | InstallWaiting
    | Copying(next: nat)
    | InstallStamped(now: int)
    | InstallEnded(committed: bool)

  /**
   * Where a realtime refresh is. The SELECTs run one batch at a time outside a transaction; the first
   * DELETE opens one.
   */
  datatype RefreshPhase =
    | RefreshWaiting
    | Selecting(next: nat, batches: seq<seq<string>>, low: Day, high: Day, candidates: Candidates)
    | Writing(next: nat, overlay: OverlayRows)
    | RefreshStamped(overlay: OverlayRows, now: int)
    | RefreshEnded(committed: bool)

  datatype Task =
    | InstallTask(slug: Slug, rows: StaticRows, install: InstallPhase)
    | RefreshTask(slug: Slug, feeds: seq<FeedMessage>, refresh: RefreshPhase)

  /** What a reader's SELECT saw: the tables, and how many transactions had been committed. */
  datatype Snapshot = Snapshot(commits: nat, tables: Tables)

  datatype System = System(
    db: Tables,                 // what is committed
    holder: Option<TaskId>,     // who holds the writer lock
    work: Tables,               // the holder's uncommitted tables
    tasks: map<TaskId, Task>,
    clock: int,
    log: seq<Commit>,           // history: the committed transactions
    snapshots: seq<Snapshot>)   // history: what readers saw

  predicate Idle(task: Task) {
    match task
    case InstallTask(_, _, phase) => phase.InstallWaiting? || phase.InstallEnded?
    case RefreshTask(_, _, phase) => phase.RefreshWaiting? || phase.RefreshEnded?
  }

  ghost predicate Init(s: System) {
    s.holder.None? && s.log == [] && s.snapshots == [] && s.tasks == map[]
  }

  // ---------------------------------------------------------------- steps

  function WithTask(s: System, id: TaskId, task: Task): System { s.(tasks := s.tasks[id := task]) }

  /**
   * A build has finished, or realtime feeds have been downloaded: a new writer wants the lock. A schedule is only
   * built for a provider whose row has been ensured.
   */
  ghost predicate Spawn(s: System, s': System, id: TaskId, task: Task) {
    id !in s.tasks && s' == WithTask(s, id, task) &&
    match task
    case InstallTask(slug, rows, phase) => phase.InstallWaiting? && StaticRowsOf(rows, slug) && slug in s.db.providers
    case RefreshTask(_, _, phase) => phase.RefreshWaiting?
  }

  /** The batches name exactly the predicted trips. */
  ghost predicate Cover(batches: seq<seq<string>>, estimated: map<Key, int>) {
    forall trip :: trip in TripsOf(estimated) <==> exists i :: 0 <= i < |batches| && trip in batches[i]
  }

  ghost predicate IsWindow(zone: Zone, estimated: map<Key, int>, low: Day, high: Day) {
    1 <= low <= MAX_DAY && 1 <= high <= MAX_DAY && forall day :: low <= day <= high <==> InReach(zone, estimated, day)
  }

  ghost predicate AcquireInstall(s: System, s': System, id: TaskId) {
    s.holder.None? && id in s.tasks && s.tasks[id].InstallTask? && s.tasks[id].install.InstallWaiting? &&
    s' == WithTask(s, id, s.tasks[id].(install := Copying(0))).(holder := Some(id), work := s.db)
  }

  /** The feeds have been read: any batching of the predicted trips, in any order, with the window around them. */
  ghost predicate AcquireRefresh(zone: Zone, s: System, s': System, id: TaskId, batches: seq<seq<string>>, low: Day,
                                 high: Day) {
    s.holder.None? && id in s.tasks && s.tasks[id].RefreshTask? && s.tasks[id].refresh.RefreshWaiting? &&
    (forall m :: m in s.tasks[id].feeds ==> HasHeader(m)) &&
    Cover(batches, Gather(s.tasks[id].feeds).estimated) &&
      IsWindow(zone, Gather(s.tasks[id].feeds).estimated, low, high) &&
    s' == WithTask(s, id, s.tasks[id].(refresh := Selecting(0, batches, low, high, map[]))).(holder := Some(id))
  }

  ghost predicate Copy(s: System, s': System, id: TaskId) {
    s.holder == Some(id) && id in s.tasks && s.tasks[id].InstallTask? && s.tasks[id].install.Copying? &&
    var k := s.tasks[id].install.next;
    k < INSTALL_STATEMENTS && InstallStatement(s.work, s.tasks[id].slug, s.tasks[id].rows, k).Success? &&
    s' == WithTask(s, id, s.tasks[id].(install := Copying(k + 1))).(
            work := InstallStatement(s.work, s.tasks[id].slug, s.tasks[id].rows, k).value)
  }

  ghost predicate StampInstall(s: System, s': System, id: TaskId) {
    s.holder == Some(id) && id in s.tasks && s.tasks[id].InstallTask? &&
      s.tasks[id].install == Copying(INSTALL_STATEMENTS) &&
    s' == WithTask(s, id, s.tasks[id].(install := InstallStamped(s.clock))).(
            work := StampStatic(s.work, s.tasks[id].slug, s.clock))
  }

  ghost predicate CommitInstall(s: System, s': System, id: TaskId) {
    s.holder == Some(id) && id in s.tasks && s.tasks[id].InstallTask? && s.tasks[id].install.InstallStamped? &&
    s' == WithTask(s, id, s.tasks[id].(install := InstallEnded(true))).(
            db := s.work, holder := None,
            log := s.log + [InstallCommit(s.tasks[id].slug, s.tasks[id].rows, s.tasks[id].install.now)])
  }

  /** One batch: SQLite returns its rows in any order, from whatever is committed at this moment. */
  ghost predicate Select(zone: Zone, s: System, s': System, id: TaskId, rows: seq<Occurrence>) {
    s.holder == Some(id) && id in s.tasks && s.tasks[id].RefreshTask? && s.tasks[id].refresh.Selecting? &&
    var task := s.tasks[id];
    var p := task.refresh;
    p.next < |p.batches| && 1 <= p.low <= MAX_DAY && 1 <= p.high <= MAX_DAY &&
    Enumerates(rows, Occurrences(s.db, task.slug, Elements(p.batches[p.next]), p.low, p.high)) &&
    s' == WithTask(s, id, task.(refresh := Selecting(p.next + 1, p.batches, p.low, p.high,
            Scan(zone, Gather(task.feeds).estimated, p.candidates, rows))))
  }

  ghost predicate BeginOverlay(s: System, s': System, id: TaskId) {
    s.holder == Some(id) && id in s.tasks && s.tasks[id].RefreshTask? && s.tasks[id].refresh.Selecting? &&
    var task := s.tasks[id];
    var g := Gather(task.feeds);
    task.refresh.next == |task.refresh.batches| &&
    s' == WithTask(s, id, task.(refresh := Writing(0,
            RowsOf(task.slug, DelaysOf(g.estimated, task.refresh.candidates) + g.delays, g.cancelled, g.skipped)))).(
            work := s.db)
  }

  ghost predicate WriteOverlayRow(s: System, s': System, id: TaskId) {
    s.holder == Some(id) && id in s.tasks && s.tasks[id].RefreshTask? && s.tasks[id].refresh.Writing? &&
    var task := s.tasks[id];
    var p := task.refresh;
    p.next < OVERLAY_STATEMENTS && OverlayStatement(s.work, task.slug, p.overlay, p.next).Success? &&
    s' == WithTask(s, id, task.(refresh := Writing(p.next + 1, p.overlay))).(
            work := OverlayStatement(s.work, task.slug, p.overlay, p.next).value)
  }

  ghost predicate StampRefresh(s: System, s': System, id: TaskId) {
    s.holder == Some(id) && id in s.tasks && s.tasks[id].RefreshTask? && s.tasks[id].refresh.Writing? &&
    s.tasks[id].refresh.next == OVERLAY_STATEMENTS &&
    s' == WithTask(s, id, s.tasks[id].(refresh := RefreshStamped(s.tasks[id].refresh.overlay, s.clock))).(
            work := StampRealtime(s.work, s.tasks[id].slug, s.clock))
  }

  ghost predicate CommitRefresh(s: System, s': System, id: TaskId) {
    s.holder == Some(id) && id in s.tasks && s.tasks[id].RefreshTask? && s.tasks[id].refresh.RefreshStamped? &&
    var task := s.tasks[id];
    s' == WithTask(s, id, task.(refresh := RefreshEnded(true))).(
            db := s.work, holder := None,
            log := s.log + [RefreshCommit(task.slug, task.feeds, task.refresh.overlay, task.refresh.now)])
  }

  function Aborted(task: Task): Task {
    match task
    case InstallTask(_, _, _) => task.(install := InstallEnded(false))
    case RefreshTask(_, _, _) => task.(refresh := RefreshEnded(false))
  }

  /** Any failure while holding the lock: roll back, release. */
  ghost predicate Rollback(s: System, s': System, id: TaskId) {
    s.holder == Some(id) && id in s.tasks && s' == WithTask(s, id, Aborted(s.tasks[id])).(holder := None)
  }

  /** A failure before the lock is taken. */
  ghost predicate GiveUp(s: System, s': System, id: TaskId) {
    id in s.tasks && s.holder != Some(id) && Idle(s.tasks[id]) && s' == WithTask(s, id, Aborted(s.tasks[id]))
  }

  /** _ensure_provider, a transaction of one statement. */
  ghost predicate Ensure(s: System, s': System, slug: Slug, city: string) {
    s.holder.None? && s' == s.(db := Ensured(s.db, slug, city), log := s.log + [EnsureCommit(slug, city)])
  }

  ghost predicate Read(s: System, s': System) {
    s' == s.(snapshots := s.snapshots + [Snapshot(|s.log|, s.db)])
  }

  ghost predicate Tick(s: System, s': System) { s' == s.(clock := s'.clock) && s.clock <= s'.clock }

  ghost predicate Next(zone: Zone, s: System, s': System) {
    || (exists id, task :: Spawn(s, s', id, task))
    || (exists id :: AcquireInstall(s, s', id))
    || (exists id :: Copy(s, s', id))
    || (exists id :: StampInstall(s, s', id))
    || (exists id :: CommitInstall(s, s', id))
    || (exists id, batches, low, high :: AcquireRefresh(zone, s, s', id, batches, low, high))
    || (exists id, rows :: Select(zone, s, s', id, rows))
    || (exists id :: BeginOverlay(s, s', id))
    || (exists id :: WriteOverlayRow(s, s', id))
    || (exists id :: StampRefresh(s, s', id))
    || (exists id :: CommitRefresh(s, s', id))
    || (exists id :: Rollback(s, s', id))
    || (exists id :: GiveUp(s, s', id))
    || (exists slug, city :: Ensure(s, s', slug, city))
    || Read(s, s')
    || Tick(s, s')
  }

  // ---------------------------------------------------------------- the invariant

  /** The holder's progress, told against the committed tables it started from, which nobody else can change. */
  ghost predicate Progress(zone: Zone, db: Tables, work: Tables, task: Task) {
    match task
    case InstallTask(slug, rows, phase) =>
      StaticRowsOf(rows, slug) &&
      (match phase
       case Copying(k) => k <= INSTALL_STATEMENTS && InstallPrefix(db, slug, rows, k) == Success(work)
       case InstallStamped(now) => work == Installed(db, slug, rows, now)
       case _ => false)
    case RefreshTask(slug, feeds, phase) =>
      (match phase
       case Selecting(k, batches, low, high, candidates) =>
         k <= |batches| && IsWindow(zone, Gather(feeds).estimated, low, high) &&
           Cover(batches, Gather(feeds).estimated) &&
         AreNearest(zone, Gather(feeds).estimated, SeenBefore(db, slug, batches, k, low, high), candidates)
       case Writing(k, overlay) =>
         OverlayRowsOf(overlay, slug) && OverlayFrom(db, slug, zone, feeds, overlay) &&
         k <= OVERLAY_STATEMENTS && OverlayPrefix(db, slug, overlay, k) == Success(work)
       case RefreshStamped(overlay, now) =>
         OverlayRowsOf(overlay, slug) && OverlayFrom(db, slug, zone, feeds, overlay) &&
           work == Refreshed(db, slug, overlay, now)
       case _ => false)
  }

  ghost predicate TasksFine(zone: Zone, s: System) {
    (forall id :: id in s.tasks && s.holder != Some(id) ==> Idle(s.tasks[id])) &&
    (forall id :: id in s.tasks && s.tasks[id].InstallTask? ==>
      StaticRowsOf(s.tasks[id].rows, s.tasks[id].slug) && s.tasks[id].slug in s.db.providers) &&
    (s.holder.Some? ==> s.holder.value in s.tasks && Progress(zone, s.db, s.work, s.tasks[s.holder.value]))
  }

  ghost predicate HistoryFine(zone: Zone, init: Tables, s: System) {
    s.db == Replay(init, s.log) && AdmissibleLog(zone, init, s.log)
  }

  ghost predicate ReadsFine(init: Tables, s: System) {
    forall i :: 0 <= i < |s.snapshots| ==>
      s.snapshots[i].commits <= |s.log| && s.snapshots[i].tables == Replay(init, s.log[..s.snapshots[i].commits])
  }

  ghost predicate Inv(zone: Zone, init: Tables, s: System) {
    TasksFine(zone, s) && HistoryFine(zone, init, s) && ReadsFine(init, s)
  }

  // ---------------------------------------------------------------- preservation

  lemma CommitKeepsHistory(zone: Zone, init: Tables, s: System, s': System, c: Commit)
    requires HistoryFine(zone, init, s) && ReadsFine(init, s)
    requires Admissible(zone, s.db, c) && s'.db == Apply(s.db, c) && s'.log == s.log + [c] &&
             s'.snapshots == s.snapshots
    ensures HistoryFine(zone, init, s') && ReadsFine(init, s')
  {
    hide Admissible, Apply, AdmissibleLog;
    ReplayNext(init, s.log, c);
    AdmissibleNext(zone, init, s.log, c);
    forall i | 0 <= i < |s'.snapshots|
      ensures s'.snapshots[i].commits <= |s'.log| &&
              s'.snapshots[i].tables == Replay(init, s'.log[..s'.snapshots[i].commits])
    {
      assert s'.log[..s'.snapshots[i].commits] == s.log[..s.snapshots[i].commits];
    }
  }

  /** No transaction removes a provider. */
  lemma ProvidersStay(t: Tables, c: Commit)
    ensures t.providers.Keys <= Apply(t, c).providers.Keys
  {
    forall slug | slug in t.providers ensures slug in Apply(t, c).providers {
      ProviderOfApply(t, c, slug);
      assert Provider(Apply(t, c), slug).Some?;
    }
  }

  lemma InstallSteps(zone: Zone, init: Tables, s: System, s': System, id: TaskId)
    requires Inv(zone, init, s)
    requires AcquireInstall(s, s', id) || Copy(s, s', id) || StampInstall(s, s', id) || CommitInstall(s, s', id)
    ensures Inv(zone, init, s')
  {
    hide InstallStatement, Installed, WithSchedule, StaticRowsOf, Replay, AdmissibleLog;
    var task := s.tasks[id];
    if AcquireInstall(s, s', id) {
      assert InstallPrefix(s.db, task.slug, task.rows, 0) == Success(s.db);
    } else if Copy(s, s', id) {
      var k := task.install.next;
      assert InstallPrefix(s.db, task.slug, task.rows, k + 1) == InstallStatement(s.work, task.slug, task.rows, k);
    } else if StampInstall(s, s', id) {
      InstallNeverConflicts(s.db, task.slug, task.rows, INSTALL_STATEMENTS);
      InstalledIsStamp(s.db, task.slug, task.rows, s.clock);
    } else {
      var c := InstallCommit(task.slug, task.rows, task.install.now);
      ProvidersStay(s.db, c);
      CommitKeepsHistory(zone, init, s, s', c);
    }
  }

  lemma InstalledIsStamp(t: Tables, slug: Slug, rows: StaticRows, now: int)
    ensures Installed(t, slug, rows, now) == StampStatic(WithSchedule(t, slug, rows), slug, now)
  {
  }

  lemma SelectSteps(zone: Zone, init: Tables, s: System, s': System, id: TaskId)
    requires Inv(zone, init, s)
    requires (exists batches, low, high :: AcquireRefresh(zone, s, s', id, batches, low, high)) ||
             exists rows :: Select(zone, s, s', id, rows)
    ensures Inv(zone, init, s')
  {
    hide Scan, AreNearest, SeenBefore, IsWindow, Cover, Gather, Replay, AdmissibleLog, Occurrences;
    var task := s.tasks[id];
    var estimated := Gather(task.feeds).estimated;
    if batches, low, high :| AcquireRefresh(zone, s, s', id, batches, low, high) {
      NoCandidates(s.db, task.slug, zone, estimated, batches, low, high);
    } else {
      var rows :| Select(zone, s, s', id, rows);
      var p := task.refresh;
      var seen := SeenBefore(s.db, task.slug, p.batches, p.next, p.low, p.high);
      ScanKeepsNearest(zone, estimated, seen, p.candidates, rows);
      SeenNext(s.db, task.slug, p.batches, p.next, p.low, p.high, rows);
    }
  }

  /** With every batch read, the derived delays fit the schedule that is committed. */
  lemma SelectedDelaysFit(zone: Zone, db: Tables, slug: Slug, feeds: seq<FeedMessage>, p: RefreshPhase)
    requires p.Selecting? && p.next == |p.batches|
    requires IsWindow(zone, Gather(feeds).estimated, p.low, p.high) && Cover(p.batches, Gather(feeds).estimated)
    requires AreNearest(zone, Gather(feeds).estimated, SeenBefore(db, slug, p.batches, p.next, p.low, p.high),
                        p.candidates)
    ensures var g := Gather(feeds);
      var overlay := RowsOf(slug, DelaysOf(g.estimated, p.candidates) + g.delays, g.cancelled, g.skipped);
      OverlayRowsOf(overlay, slug) && OverlayFrom(db, slug, zone, feeds, overlay)
  {
    hide IsScheduled, InReach, AreNearest, NearestDelays, Gather;
    var g := Gather(feeds);
    var seen := SeenBefore(db, slug, p.batches, p.next, p.low, p.high);
    forall o | KeyOf(o) in g.estimated ensures o in seen <==> o in Reach(db, slug, zone, g.estimated) {
      assert o.tripId in TripsOf(g.estimated);
    }
    CandidatesGiveDelays(db, slug, zone, g.estimated, seen, p.candidates);
  }

  lemma OverlaySteps(zone: Zone, init: Tables, s: System, s': System, id: TaskId)
    requires Inv(zone, init, s)
    requires BeginOverlay(s, s', id) || WriteOverlayRow(s, s', id) || StampRefresh(s, s', id) ||
             CommitRefresh(s, s', id)
    ensures Inv(zone, init, s')
  {
    hide OverlayFrom, OverlayRowsOf, OverlayStatement, Refreshed, WithOverlay, AreNearest, SeenBefore, IsWindow, Cover,
         Gather, Replay, AdmissibleLog, DelaysOf, RowsOf;
    var task := s.tasks[id];
    if BeginOverlay(s, s', id) {
      SelectedDelaysFit(zone, s.db, task.slug, task.feeds, task.refresh);
      assert OverlayPrefix(s.db, task.slug, s'.tasks[id].refresh.overlay, 0) == Success(s.db);
    } else if WriteOverlayRow(s, s', id) {
      var p := task.refresh;
      assert OverlayPrefix(s.db, task.slug, p.overlay, p.next + 1) ==
             OverlayStatement(s.work, task.slug, p.overlay, p.next);
    } else if StampRefresh(s, s', id) {
      OverlayNeverConflicts(s.db, task.slug, task.refresh.overlay, OVERLAY_STATEMENTS);
      RefreshedIsStamp(s.db, task.slug, task.refresh.overlay, s.clock);
    } else {
      var c := RefreshCommit(task.slug, task.feeds, task.refresh.overlay, task.refresh.now);
      ProvidersStay(s.db, c);
      CommitKeepsHistory(zone, init, s, s', c);
    }
  }

  lemma RefreshedIsStamp(t: Tables, slug: Slug, rows: OverlayRows, now: int)
    ensures Refreshed(t, slug, rows, now) == StampRealtime(WithOverlay(t, slug, rows), slug, now)
  {
  }

  /** A new task is idle, and leaves the tables and the history alone. */
  lemma SpawnStep(zone: Zone, init: Tables, s: System, s': System, id: TaskId, task: Task)
    requires Inv(zone, init, s) && Spawn(s, s', id, task)
    ensures Inv(zone, init, s')
  {
    hide Progress, StaticRowsOf, HistoryFine, ReadsFine;
    Unchanged(zone, init, s, s');
  }

  /** So do a rollback and a task that gives up. */
  lemma ReleaseStep(zone: Zone, init: Tables, s: System, s': System, id: TaskId)
    requires Inv(zone, init, s) && (Rollback(s, s', id) || GiveUp(s, s', id))
    ensures Inv(zone, init, s')
  {
    hide Progress, StaticRowsOf, HistoryFine, ReadsFine;
    Unchanged(zone, init, s, s');
  }

  lemma Unchanged(zone: Zone, init: Tables, s: System, s': System)
    requires HistoryFine(zone, init, s) && ReadsFine(init, s)
    requires s'.db == s.db && s'.log == s.log && s'.snapshots == s.snapshots
    ensures HistoryFine(zone, init, s') && ReadsFine(init, s')
  {
    hide Replay, AdmissibleLog;
  }

  lemma EnsureStep(zone: Zone, init: Tables, s: System, s': System, slug: Slug, city: string)
    requires Inv(zone, init, s) && Ensure(s, s', slug, city)
    ensures Inv(zone, init, s')
  {
    hide Progress, StaticRowsOf, HistoryFine, ReadsFine;
    ProvidersStay(s.db, EnsureCommit(slug, city));
    CommitKeepsHistory(zone, init, s, s', EnsureCommit(slug, city));
  }

  lemma ReadOrTick(zone: Zone, init: Tables, s: System, s': System)
    requires Inv(zone, init, s) && (Read(s, s') || Tick(s, s'))
    ensures Inv(zone, init, s')
  {
    hide Progress, StaticRowsOf, Replay, AdmissibleLog;
    assert s.log[..|s.log|] == s.log;
  }

  lemma NextKeepsInv(zone: Zone, init: Tables, s: System, s': System)
    requires Inv(zone, init, s) && Next(zone, s, s')
    ensures Inv(zone, init, s')
  {
    hide Inv, Spawn, AcquireInstall, Copy, StampInstall, CommitInstall, AcquireRefresh, Select, BeginOverlay,
         WriteOverlayRow, StampRefresh, CommitRefresh, Rollback, GiveUp, Ensure, Read, Tick;
    if id :| AcquireInstall(s, s', id) || Copy(s, s', id) || StampInstall(s, s', id) || CommitInstall(s, s', id) {
      InstallSteps(zone, init, s, s', id);
    } else if id, batches, low, high :| AcquireRefresh(zone, s, s', id, batches, low, high) {
      SelectSteps(zone, init, s, s', id);
    } else if id, rows :| Select(zone, s, s', id, rows) {
      SelectSteps(zone, init, s, s', id);
    } else if id :| (BeginOverlay(s, s', id) || WriteOverlayRow(s, s', id) || StampRefresh(s, s', id) ||
                     CommitRefresh(s, s', id)) {
      OverlaySteps(zone, init, s, s', id);
    } else if id, task :| Spawn(s, s', id, task) {
      SpawnStep(zone, init, s, s', id, task);
    } else if id :| Rollback(s, s', id) || GiveUp(s, s', id) {
      ReleaseStep(zone, init, s, s', id);
    } else if slug, city :| Ensure(s, s', slug, city) {
      EnsureStep(zone, init, s, s', slug, city);
    } else {
      ReadOrTick(zone, init, s, s');
    }
  }

  // ---------------------------------------------------------------- runs

  ghost predicate IsRun(zone: Zone, run: seq<System>) {
    run != [] && Init(run[0]) && forall i :: 0 <= i < |run| - 1 ==> Next(zone, run[i], run[i + 1])
  }

  lemma {:induction false} RunsKeepInv(zone: Zone, run: seq<System>, i: nat)
    requires IsRun(zone, run) && i < |run|
    ensures Inv(zone, run[0].db, run[i])
    decreases i
  {
    hide Next;
    if i == 0 {
      StartFine(zone, run[0]);
    } else {
      RunsKeepInv(zone, run, i - 1);
      assert Next(zone, run[i - 1], run[i - 1 + 1]);
      NextKeepsInv(zone, run[0].db, run[i - 1], run[i]);
    }
  }

  lemma StartFine(zone: Zone, s: System)
    requires Init(s)
    ensures Inv(zone, s.db, s)
  {
  }

  /**
   * Serialisability: in every state of every interleaving the committed tables are those of the
   * committed transactions run whole, one after another, in commit order.
   */
  lemma Serialisable(zone: Zone, run: seq<System>, i: nat)
    requires IsRun(zone, run) && i < |run|
    ensures run[i].db == Replay(run[0].db, run[i].log) && AdmissibleLog(zone, run[0].db, run[i].log)
  {
    RunsKeepInv(zone, run, i);
  }

  /**
   * Overlay consistency: although the SELECTs and the later DELETE/INSERTs are separate steps, a provider's
   * committed realtime rows always fit the schedule committed with them.
   */
  lemma OverlayAlwaysFits(zone: Zone, run: seq<System>, i: nat, slug: Slug)
    requires IsRun(zone, run) && i < |run|
    ensures OverlayFits(zone, run[0].db, run[i].log, slug, run[i].db)
  {
    hide OverlayFrom, StaticOf, OverlayOf, Replay, AdmissibleLog;
    Serialisable(zone, run, i);
    OverlayFitsInstalledSchedule(zone, run[0].db, run[i].log, slug);
  }

  /**
   * Publish atomicity: what any reader sees of a provider is entirely one feed, that of the last install committed
   * before the read or the schedule from before the run, and its realtime rows fit that very feed.
   */
  lemma ReadersSeeWholeFeeds(zone: Zone, run: seq<System>, i: nat, r: nat, slug: Slug)
    requires IsRun(zone, run) && i < |run| && r < |run[i].snapshots|
    ensures var snapshot := run[i].snapshots[r];
      snapshot.commits <= |run[i].log| &&
      var seen := run[i].log[..snapshot.commits];
      StaticOf(snapshot.tables, slug) == LastSchedule(run[0].db, seen, slug) &&
      OverlayFits(zone, run[0].db, seen, slug, snapshot.tables)
  {
    hide StaticOf, OverlayOf, OverlayFrom, Replay, IsRun, TasksFine, AdmissibleLog;
    RunsKeepInv(zone, run, i);
    var snapshot := run[i].snapshots[r];
    AdmissiblePrefix(zone, run[0].db, run[i].log, snapshot.commits);
    ScheduleIsLastInstall(zone, run[0].db, run[i].log[..snapshot.commits], slug);
    OverlayFitsInstalledSchedule(zone, run[0].db, run[i].log[..snapshot.commits], slug);
  }

  /**
   * Confluence: two runs from the same tables in which every provider has gone through the same transactions in
   * the same order, at whatever times and in whatever interleaving with the others, hold the same schedules,
   * overlays and providers; only timestamps that the transactions have set can differ.
   */
  lemma InterleavingsAgree(zone: Zone, a: seq<System>, b: seq<System>, i: nat, j: nat, slug: Slug)
    requires IsRun(zone, a) && IsRun(zone, b) && i < |a| && j < |b| && a[0].db == b[0].db
    requires forall s :: SameHistory(Own(a[i].log, s), Own(b[j].log, s))
    ensures AgreeUpToStamps(HoldingOf(a[i].db, slug), HoldingOf(b[j].db, slug), Own(a[i].log, slug))
  {
    hide Replay, AdmissibleLog, IsRun, Own, SameHistory, HoldingOf, AgreeUpToStamps;
    Serialisable(zone, a, i);
    Serialisable(zone, b, j);
    SameHistoriesAgree(zone, a[0].db, a[i].log, b[j].log);
  }

  /** In particular when both have installed the same feeds for distinct providers, in any order at any times. */
  lemma InstallInterleavingsAgree(zone: Zone, a: seq<System>, b: seq<System>, i: nat, j: nat, slug: Slug)
    requires IsRun(zone, a) && IsRun(zone, b) && i < |a| && j < |b| && a[0].db == b[0].db
    requires DistinctInstalls(a[i].log) && DistinctInstalls(b[j].log)
    requires forall s, rows :: InstallsRows(a[i].log, s, rows) <==> InstallsRows(b[j].log, s, rows)
    ensures AgreeUpToStamps(HoldingOf(a[i].db, slug), HoldingOf(b[j].db, slug), Own(a[i].log, slug))
  {
    hide IsRun, DistinctInstalls, InstallsRows, Own, SameHistory, HoldingOf, AgreeUpToStamps;
    forall s ensures SameHistory(Own(a[i].log, s), Own(b[j].log, s)) {
      InstallOrderIsFree(a[i].log, b[j].log, s);
    }
    InterleavingsAgree(zone, a, b, i, j, slug);
  }

  // ---------------------------------------------------------------- failures and readers

  /**
   * Any writer can fail at any time, the lock's holder at every statement: then it is done, what is committed stays
   * as it is, and it does not hold the lock.
   */
  lemma WritersCanFail(zone: Zone, s: System, id: TaskId) returns (s': System)
    requires id in s.tasks && (s.holder == Some(id) || Idle(s.tasks[id]))
    ensures Next(zone, s, s') && s'.db == s.db && s'.log == s.log && s'.snapshots == s.snapshots
    ensures s'.holder == (if s.holder == Some(id) then None else s.holder)
    ensures s'.tasks == s.tasks[id := Aborted(s.tasks[id])] && Idle(s'.tasks[id])
  {
    s' := WithTask(s, id, Aborted(s.tasks[id]));
    if s.holder == Some(id) {
      s' := s'.(holder := None);
      assert Rollback(s, s', id);
    } else {
      assert GiveUp(s, s', id);
    }
  }

  /** A reader never waits: in every state, whoever holds the lock, it sees what is committed. */
  lemma ReadersNeverWait(zone: Zone, s: System)
    ensures Next(zone, s, s.(snapshots := s.snapshots + [Snapshot(|s.log|, s.db)]))
  {
    assert Read(s, s.(snapshots := s.snapshots + [Snapshot(|s.log|, s.db)]));
  }

  // ---------------------------------------------------------------- the holder is never stuck

  /** How many of its own steps separate a task from releasing the lock. */
  function StepsLeft(task: Task): nat {
    match task
    case InstallTask(_, _, Copying(k)) => if k <= INSTALL_STATEMENTS then INSTALL_STATEMENTS - k + 2 else 0
    case InstallTask(_, _, InstallStamped(_)) => 1
    case RefreshTask(_, _, Selecting(k, batches, _, _, _)) =>
      (if k <= |batches| then |batches| - k else 0) + OVERLAY_STATEMENTS + 3
    case RefreshTask(_, _, Writing(k, _)) => if k <= OVERLAY_STATEMENTS then OVERLAY_STATEMENTS - k + 2 else 0
    case RefreshTask(_, _, RefreshStamped(_, _)) => 1
    case _ => 0
  }

  /** What a task will commit if it gets there with the clock standing still, once that is decided. */
  function Promise(task: Task, clock: int): Option<Commit> {
    match task
    case InstallTask(slug, rows, InstallStamped(now)) => Some(InstallCommit(slug, rows, now))
    case InstallTask(slug, rows, _) => Some(InstallCommit(slug, rows, clock))
    case RefreshTask(slug, feeds, RefreshStamped(overlay, now)) => Some(RefreshCommit(slug, feeds, overlay, now))
    case RefreshTask(slug, feeds, Writing(_, overlay)) => Some(RefreshCommit(slug, feeds, overlay, clock))
    case RefreshTask(_, _, _) => None
  }

  /**
   * s' is one of the holder's own steps after s; at the end of its steps it has committed what it promised and let
   * the lock go.
   */
  ghost predicate Advances(zone: Zone, s: System, s': System) {
    Next(zone, s, s') && s.holder.Some? && s.holder.value in s.tasks && s.holder.value in s'.tasks &&
      s'.clock == s.clock &&
    var task, task' := s.tasks[s.holder.value], s'.tasks[s.holder.value];
    StepsLeft(task') < StepsLeft(task) &&
    (StepsLeft(task') == 0 <==> s'.holder.None?) &&
    (if s'.holder.None? then
       Promise(task, s.clock).Some? && s'.log == s.log + [Promise(task, s.clock).value] && s'.db == s.work
     else
       s'.holder == s.holder && s'.log == s.log && s'.db == s.db &&
       (Promise(task, s.clock).Some? ==> Promise(task', s.clock) == Promise(task, s.clock)))
  }

  /**
   * In every reachable state the lock's holder can take its next step without failing, and each such
   * step brings it closer to committing: no constraint is violated, no deadlock, and the lock is let go.
   */
  lemma HolderCanProceed(zone: Zone, init: Tables, s: System) returns (s': System)
    requires Inv(zone, init, s) && s.holder.Some?
    ensures Advances(zone, s, s')
  {
    hide Progress, HistoryFine, ReadsFine, Advances;
    var task := s.tasks[s.holder.value];
    assert Progress(zone, s.db, s.work, task);
    if task.InstallTask? {
      s' := InstallCanProceed(zone, s, task);
    } else {
      s' := RefreshCanProceed(zone, s, task);
    }
  }

  lemma InstallCanProceed(zone: Zone, s: System, task: Task) returns (s': System)
    requires s.holder.Some? && s.holder.value in s.tasks && s.tasks[s.holder.value] == task
    requires task.InstallTask? && task.slug in s.db.providers && Progress(zone, s.db, s.work, task)
    ensures Advances(zone, s, s')
  {
    hide InstallStatement, StaticRowsOf, Installed, InstallPrefix;
    var id := s.holder.value;
    match task.install
    case Copying(k) =>
      if k < INSTALL_STATEMENTS {
        CopyCanProceed(s.db, s.work, task.slug, task.rows, k);
        s' := WithTask(s, id, task.(install := Copying(k + 1))).(
          work := InstallStatement(s.work, task.slug, task.rows, k).value);
        assert Copy(s, s', id);
      } else {
        s' := WithTask(s, id, task.(install := InstallStamped(s.clock))).(work :=
          StampStatic(s.work, task.slug, s.clock));
        assert StampInstall(s, s', id);
      }
    case InstallStamped(now) =>
      s' := WithTask(s, id, task.(install := InstallEnded(true))).(
        db := s.work, holder := None, log := s.log + [InstallCommit(task.slug, task.rows, now)]);
      assert CommitInstall(s, s', id);
  }

  lemma CopyCanProceed(db: Tables, work: Tables, slug: Slug, rows: StaticRows, k: nat)
    requires k < INSTALL_STATEMENTS && StaticRowsOf(rows, slug) && slug in db.providers
    requires InstallPrefix(db, slug, rows, k) == Success(work)
    ensures InstallStatement(work, slug, rows, k).Success?
  {
    hide InstallStatement, StaticRowsOf;
    InstallNeverConflicts(db, slug, rows, k + 1);
    assert InstallPrefix(db, slug, rows, k + 1) == InstallStatement(work, slug, rows, k);
  }

  lemma RefreshCanProceed(zone: Zone, s: System, task: Task) returns (s': System)
    requires s.holder.Some? && s.holder.value in s.tasks && s.tasks[s.holder.value] == task
    requires task.RefreshTask? && Progress(zone, s.db, s.work, task)
    ensures Advances(zone, s, s')
  {
    hide OverlayStatement, OverlayFrom, OverlayRowsOf, Refreshed, AreNearest, SeenBefore, Gather, Scan, Occurrences,
         OverlayPrefix, DelaysOf, RowsOf, Cover;
    var id := s.holder.value;
    match task.refresh
    case Selecting(k, batches, low, high, candidates) =>
      if k < |batches| {
        var rows := ListingExists(Occurrences(s.db, task.slug, Elements(batches[k]), low, high));
        s' := WithTask(s, id, task.(refresh := Selecting(k + 1, batches, low, high,
          Scan(zone, Gather(task.feeds).estimated, candidates, rows))));
        assert Select(zone, s, s', id, rows);
      } else {
        var g := Gather(task.feeds);
        s' := WithTask(s, id, task.(refresh := Writing(0,
          RowsOf(task.slug, DelaysOf(g.estimated, candidates) + g.delays, g.cancelled, g.skipped)))).(work := s.db);
        assert BeginOverlay(s, s', id);
      }
    case Writing(k, overlay) =>
      if k < OVERLAY_STATEMENTS {
        WriteCanProceed(s.db, s.work, task.slug, overlay, k);
        s' := WithTask(s, id, task.(refresh := Writing(k + 1, overlay))).(
          work := OverlayStatement(s.work, task.slug, overlay, k).value);
        assert WriteOverlayRow(s, s', id);
      } else {
        s' := WithTask(s, id, task.(refresh := RefreshStamped(overlay, s.clock))).(
          work := StampRealtime(s.work, task.slug, s.clock));
        assert StampRefresh(s, s', id);
      }
    case RefreshStamped(overlay, now) =>
      s' := WithTask(s, id, task.(refresh := RefreshEnded(true))).(
        db := s.work, holder := None, log := s.log + [RefreshCommit(task.slug, task.feeds, overlay, now)]);
      assert CommitRefresh(s, s', id);
  }

  lemma WriteCanProceed(db: Tables, work: Tables, slug: Slug, overlay: OverlayRows, k: nat)
    requires k < OVERLAY_STATEMENTS && OverlayRowsOf(overlay, slug) &&
             OverlayPrefix(db, slug, overlay, k) == Success(work)
    ensures OverlayStatement(work, slug, overlay, k).Success?
  {
    hide OverlayStatement, OverlayRowsOf;
    OverlayNeverConflicts(db, slug, overlay, k + 1);
    assert OverlayPrefix(db, slug, overlay, k + 1) == OverlayStatement(work, slug, overlay, k);
  }
}
