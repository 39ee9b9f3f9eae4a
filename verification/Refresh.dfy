/**
 * RefreshService of app/core/refresh.py. What the outside world answers in a cycle (URLs, downloads,
 * exceptions in a worker, disk errors) is a parameter; the clock and which task runs next are nondeterministic choices.
 */
module Refresh {
  import opened Prelude
  import opened Schema
  import opened StaticFeed
  import opened StaticImport
  import opened Observations
  import opened Realtime
  import opened Commits
  import opened ProviderStatus
  import StopList

  const INSERT_BATCH_SIZE: nat := 5000
  const TRIP_ID_BATCH_SIZE: nat := 500

  /** A configured provider. */
  datatype Provider = Provider(slug: Slug, city: string)

  // ---------------------------------------------------------------- the outside world

  /**
   * A schedule: static_feed_urls raises, the build raises in its worker process for a reason of its own, or each
   * URL yields an archive or an error. Such an exception comes back to the one task that awaits the build; a worker
   * process that dies is another matter, and not modelled. raisesAt is the step at which the disk fails the install,
   * if it does: a statement, or the end of it.
   */
  datatype ScheduleAnswer =
    | UrlsUnresolved
    | WorkerRaises
    | Downloaded(archives: seq<Option<Archive>>, raisesAt: Option<nat>)

  /**
   * Delays: trip_update_urls raises or is empty, a download fails, or there are messages; raises says that one of
   * them cannot be decoded or that the disk fails.
   */
  datatype DelaysAnswer = UrlsRaise | NoUrls | DownloadFails | Messages(feeds: seq<FeedMessage>, raises: bool)

  datatype MachinesAnswer = NoMachines | MachinesNotDownloaded | MachinesRejected | MachinesReplaced

  /** What one provider gets from the outside in one cycle. */
  datatype World = World(schedule: ScheduleAnswer, delays: DelaysAnswer, machines: MachinesAnswer)

  /** The worker can build the schedule. */
  ghost predicate Builds(a: ScheduleAnswer) { a.Downloaded? && a.archives != [] && AllImportable(a.archives) }

  /** And it can be installed. */
  ghost predicate ScheduleArrives(a: ScheduleAnswer) { Builds(a) && a.raisesAt.None? }

  /** The schedule that is built: the archives' own parses, later ones winning. */
  ghost function BuiltRows(slug: Slug, a: ScheduleAnswer): StaticRows
    requires Builds(a)
  {
    MergedRows(slug, Feeds(a.archives))
  }

  /** An overlay can be derived from the messages and written. */
  ghost predicate DelaysArrive(zone: Zone, a: DelaysAnswer) {
    a.Messages? && !a.raises && (forall m :: m in a.feeds ==> HasHeader(m)) &&
      Representable(zone, Gather(a.feeds).estimated)
  }

  /** Nothing raises in the auxiliary refresh. */
  ghost predicate AuxiliaryArrives(zone: Zone, w: World) {
    (w.delays.NoUrls? || DelaysArrive(zone, w.delays)) && (w.machines.NoMachines? || w.machines.MachinesReplaced?)
  }

  /** datetime.now(UTC): it never runs backwards here. */
  class Clock {
    var now: int

    method Read() returns (instant: int)
      modifies this
      ensures instant == now && old(now) <= now
    {
      var later: int := *;
      if later > now {
        now := later;
      }
      instant := now;
    }
  }

  /** app/core/database.py: one writer at a time, and commit or rollback as a whole. */
  class Database {
    var committed: Tables
    var locked: bool

    /** initialize on an existing database file: the schema is there, the stored stop names are normalised. */
    method Initialize()
      requires !locked
      modifies this
      ensures !locked && committed == StopList.Started(old(committed))
    {
      var connection := Begin();
      connection.tables := StopList.Started(connection.tables);
      Commit(connection);
    }

    method Begin() returns (connection: Connection)
      requires !locked
      modifies this`locked
      ensures locked && fresh(connection) && connection.tables == committed
    {
      locked := true;
      connection := new Connection(committed);
    }

    method Commit(connection: Connection)
      requires locked
      modifies this
      ensures !locked && committed == connection.tables
    {
      committed := connection.tables;
      locked := false;
    }

    method Rollback()
      requires locked
      modifies this`locked
      ensures !locked
    {
      locked := false;
    }
  }

  // ---------------------------------------------------------------- when a schedule is due

  function StampOf(t: Tables, slug: Slug): Stamp {
    if slug in t.providers then t.providers[slug].staticUpdated else Never
  }

  /** The test of _static_refresh_due. */
  predicate IsDue(stamp: Stamp, at: int, interval: int) {
    match stamp
    case At(instant) => at - instant >= interval
    case _ => true
  }

  function LogSlugs(log: seq<Commit>): set<Slug> { set c | c in log :: c.slug }

  /** A due provider whose schedule arrives. */
  ghost predicate Installable(interval: int, before: Tables, world: Slug -> World, checks: map<Slug, int>, s: Slug)
    requires s in checks
  {
    IsDue(StampOf(before, s), checks[s], interval) && ScheduleArrives(world(s).schedule)
  }

  /**
   * What refreshing the static feeds does to the committed tables between two clock readings: every due provider
   * whose schedule arrives gets it, stamped after its due check; every other due provider is a failure.
   */
  ghost predicate StaticPhase(interval: int, slugs: set<Slug>, world: Slug -> World, before: Tables, after: Tables,
                              start: int, end: int, checks: map<Slug, int>, log: seq<Commit>, failures: set<Slug>) {
    start <= end && after == Replay(before, log) && DistinctInstalls(log) && InTimeOrder(log) &&
    checks.Keys == slugs && (forall s :: s in slugs ==> start <= checks[s] <= end) &&
    (forall c :: c in log ==> c.slug in slugs && checks[c.slug] <= c.now <= end && FromWorld(world, c)) &&
    (forall s :: s in LogSlugs(log) <==> s in slugs && Installable(interval, before, world, checks, s)) &&
    forall s :: s in failures <==>
      s in slugs && IsDue(StampOf(before, s), checks[s], interval) && !ScheduleArrives(world(s).schedule)
  }

  /** The install is of the schedule that the world's archives make. */
  ghost predicate FromWorld(world: Slug -> World, c: Commit) {
    c.InstallCommit? && Builds(world(c.slug).schedule) && c.rows == BuiltRows(c.slug, world(c.slug).schedule)
  }

  /** The one overlay write of a provider: from these messages, stamped between two clock readings. */
  ghost predicate IsRefreshOf(c: Commit, slug: Slug, feeds: seq<FeedMessage>, from: int, to: int) {
    c.RefreshCommit? && c.slug == slug && c.feeds == feeds && from <= c.now <= to
  }

  /** The log holds one overlay for each of these providers whose delays arrive, and nothing else. */
  ghost predicate OverlaysOf(zone: Zone, slugs: set<Slug>, world: Slug -> World, start: int, end: int,
                             log: seq<Commit>) {
    InTimeOrder(log) &&
    (forall c :: c in log ==>
       c.slug in slugs && DelaysArrive(zone, world(c.slug).delays) &&
         IsRefreshOf(c, c.slug, world(c.slug).delays.feeds, start, end)) &&
    (forall s :: s in slugs && DelaysArrive(zone, world(s).delays) ==> s in LogSlugs(log)) &&
    forall i, j :: 0 <= i < j < |log| ==> log[i].slug != log[j].slug
  }

  /** What refreshing the auxiliary data does. */
  ghost predicate OverlayPhase(zone: Zone, slugs: set<Slug>, world: Slug -> World, before: Tables, after: Tables,
                               start: int, end: int, log: seq<Commit>, failures: set<Slug>) {
    after == Replay(before, log) && AdmissibleLog(zone, before, log) &&
      OverlaysOf(zone, slugs, world, start, end, log) &&
    forall s :: s in failures <==> s in slugs && !AuxiliaryArrives(zone, world(s))
  }

  /** _ensure_provider for every provider: rows exist, and nothing else has changed. */
  ghost predicate Prepared(slugs: set<Slug>, before: Tables, mid: Tables, log: seq<Commit>) {
    mid == Replay(before, log) && (forall c :: c in log ==> c.EnsureCommit? && c.slug in slugs) &&
    (forall s :: s in slugs ==> s in mid.providers) &&
    (forall s :: StampOf(mid, s) == StampOf(before, s)) &&
    forall s :: StaticOf(mid, s) == StaticOf(before, s) && OverlayOf(mid, s) == OverlayOf(before, s)
  }

  /** The history of one refresh_all: installs on the prepared tables, then realtime overlays. */
  datatype Cycle = Cycle(
    world: Slug -> World, before: Tables, mid: Tables, afterStatic: Tables, after: Tables,
    start: int, staticEnd: int, end: int, checks: map<Slug, int>, ensured: seq<Commit>, installs: seq<Commit>,
    overlays: seq<Commit>,
    staticFailures: set<Slug>, auxFailures: set<Slug>)

  ghost predicate CycleFine(zone: Zone, interval: int, slugs: set<Slug>, c: Cycle) {
    Prepared(slugs, c.before, c.mid, c.ensured) && c.staticEnd <= c.end &&
    StaticPhase(interval, slugs, c.world, c.mid, c.afterStatic, c.start, c.staticEnd, c.checks, c.installs,
                c.staticFailures) &&
    OverlayPhase(zone, slugs, c.world, c.afterStatic, c.after, c.staticEnd, c.end, c.overlays, c.auxFailures)
  }

  /** What /status must say after a completed cycle. */
  function FinalStatus(slug: Slug, staticFailures: set<Slug>, auxFailures: set<Slug>): Status {
    if slug in staticFailures || slug in auxFailures then Status(slug, Failed, 0.0) else Status(slug, Valid, 1.0)
  }

  class RefreshService {
    const database: Database
    const providers: seq<Provider>
    const interval: int
    const tracker: Tracker
    const clock: Clock
    const zone: Zone

    constructor (database: Database, providers: seq<Provider>, interval: int, clock: Clock, zone: Zone)
      requires !database.locked
      ensures this.database == database && this.providers == providers && this.interval == interval
      ensures this.clock == clock && this.zone == zone && fresh(tracker)
      ensures (forall i, j :: 0 <= i < j < |providers| ==> providers[i].slug != providers[j].slug) ==> Ready()
    {
      this.database, this.providers, this.interval, this.clock, this.zone := database, providers, interval, clock, zone;
      var slugs := seq(|providers|, i requires 0 <= i < |providers| => providers[i].slug);
      tracker := new Tracker(slugs);
      new;
      forall s | s in Slugs() ensures s in tracker.statuses.Keys {
        var i :| 0 <= i < |providers| && providers[i].slug == s;
        assert slugs[i] == s;
      }
    }

    function Slugs(): set<Slug> { set i | 0 <= i < |providers| :: providers[i].slug }

    /** No writer is active, statuses cover the providers, and no slug is configured twice. */
    ghost predicate Ready()
      reads database, tracker
    {
      !database.locked && tracker.Consistent() && Slugs() <= tracker.statuses.Keys &&
      forall i, j :: 0 <= i < j < |providers| ==> providers[i].slug != providers[j].slug
    }

    method SetStatus(slug: Slug, state: RefreshState, progress: real)
      requires tracker.Consistent() && slug in tracker.statuses && 0.0 <= progress <= 1.0
      modifies tracker
      ensures tracker.Consistent()
      ensures tracker.statuses == old(tracker.statuses)[slug := Status(slug, state, progress)]
    {
      var ok := tracker.Set(slug, state, progress);
    }

    // ---------------------------------------------------------------- schedules

    /** _static_refresh_due. */
    method StaticRefreshDue(slug: Slug) returns (due: bool, at: int)
      modifies clock
      ensures at == clock.now && old(clock.now) <= at
      ensures due <==> IsDue(StampOf(database.committed, slug), at, interval)
    {
      at := clock.Read();
      if slug !in database.committed.providers {
        return true, at;
      }
      match database.committed.providers[slug].staticUpdated {
        case Never => return true, at;
        case Unreadable => return true, at;
        case At(instant) => return at - instant >= interval, at;
      }
    }

    /** _build_static_database in a worker process, where it may also raise for reasons of its own. */
    method BuildInWorker(slug: Slug, city: string, answer: ScheduleAnswer) returns (r: Result<(Slug, Tables)>)
      requires !answer.UrlsUnresolved?
      ensures r.Success? <==> Builds(answer)
      ensures r.Success? ==> r.value.0 == slug && StaticOf(r.value.1, slug) == BuiltRows(slug, answer)
    {
      hide StagedDatabase, StaticOf;
      if answer.WorkerRaises? {
        return Failure;
      }
      var built := BuildStaticDatabase(slug, city, answer.archives, INSERT_BATCH_SIZE);
      if built.Failure? {
        return Failure;
      }
      StagedRows(slug, city, Feeds(answer.archives));
      return Success((slug, built.value));
    }

    /**
     * _install_static_database: the statements, then the timestamp and the commit, one of which may raise. With
     * the provider's row there, nothing else fails it.
     */
    method InstallStaticDatabase(slug: Slug, staged: Tables, raisesAt: Option<nat>) returns (ok: bool, at: int)
      requires !database.locked && slug in database.committed.providers
      modifies database, clock
      ensures !database.locked && old(clock.now) <= clock.now
      ensures ok <==> raisesAt.None?
      ensures ok ==> old(clock.now) <= at <= clock.now &&
                     database.committed == Installed(old(database.committed), slug, StaticOf(staged, slug), at)
      ensures !ok ==> database.committed == old(database.committed)
    {
      hide InstallStatement, WithSchedule;
      at := clock.now;
      var connection := database.Begin();
      ghost var before := connection.tables;
      var rows := StaticOf(staged, slug);
      for k := 0 to INSTALL_STATEMENTS
        invariant database.locked && database.committed == before && clock.now == old(clock.now)
        invariant fresh(connection)
        invariant InstallPrefix(before, slug, rows, k) == Success(connection.tables)
      {
        if raisesAt == Some(k) {
          database.Rollback();
          return false, at;
        }
        InstallNeverConflicts(before, slug, rows, k + 1);
        connection.tables := InstallStatement(connection.tables, slug, rows, k).value;
      }
      InstallNeverConflicts(before, slug, rows, INSTALL_STATEMENTS);
      at := clock.Read();
      connection.tables := StampStatic(connection.tables, slug, at);
      if raisesAt.Some? {
        database.Rollback();
        return false, at;
      }
      database.Commit(connection);
      return true, at;
    }

    /** The second half of _install_built_static_feed, once the build has a result. */
    method InstallBuilt(expected: Slug, staged: Tables, raisesAt: Option<nat>) returns (failed: bool, ghost at: int)
      requires Ready() && expected in Slugs() && expected in database.committed.providers
      modifies database, tracker, clock
      ensures Ready() && old(clock.now) <= clock.now
      ensures failed <==> raisesAt.Some?
      ensures failed ==> database.committed == old(database.committed)
      ensures !failed ==> old(clock.now) <= at <= clock.now &&
                          database.committed ==
                            Installed(old(database.committed), expected, StaticOf(staged, expected), at)
      ensures tracker.statuses ==
              if failed then old(tracker.statuses)[expected := Status(expected, Failed, 0.0)] else old(tracker.statuses)
    {
      hide Installed;
      var ok, instant := InstallStaticDatabase(expected, staged, raisesAt);
      at := instant;
      if !ok {
        SetStatus(expected, Failed, 0.0);
      }
      failed := !ok;
    }

    /** The slugs of the first n of some providers. */
    static function First(list: seq<Provider>, n: nat): set<Slug>
      requires n <= |list|
    {
      set i | 0 <= i < n :: list[i].slug
    }

    static ghost predicate DistinctSlugs(list: seq<Provider>) {
      forall i, j :: 0 <= i < j < |list| ==> list[i].slug != list[j].slug
    }

    static lemma FirstNext(list: seq<Provider>, n: nat)
      requires n < |list| && DistinctSlugs(list)
      ensures First(list, n + 1) == First(list, n) + {list[n].slug} && list[n].slug !in First(list, n)
    {
    }

    static lemma FirstOfExtension(list: seq<Provider>, p: Provider)
      requires DistinctSlugs(list) && p.slug !in First(list, |list|)
      ensures First(list + [p], |list| + 1) == First(list, |list|) + {p.slug} && DistinctSlugs(list + [p])
    {
      var longer := list + [p];
      forall i | 0 <= i < |list| ensures longer[i] == list[i] && list[i].slug != p.slug {
        assert list[i].slug in First(list, |list|);
      }
      forall s ensures s in First(longer, |list| + 1) <==> s in First(list, |list|) + {p.slug} {
        if s in First(list, |list|) {
          var i :| 0 <= i < |list| && list[i].slug == s;
          assert longer[i].slug == s;
        }
        if s == p.slug { assert longer[|list|].slug == s; }
      }
    }

    /** After n providers: who has been checked, at what time, and who of them is due. */
    ghost predicate CheckedSoFar(due: seq<Provider>, before: Tables, checks: map<Slug, int>, start: int, end: int,
                                 n: nat) {
      n <= |providers| && DistinctSlugs(due) && checks.Keys == First(providers, n) &&
      (forall s :: s in checks ==> start <= checks[s] <= end) &&
      forall s :: s in First(due, |due|) <==> s in checks && IsDue(StampOf(before, s), checks[s], interval)
    }

    lemma CheckedNext(due: seq<Provider>, before: Tables, checks: map<Slug, int>, start: int, end: int, at: int, n: nat,
                      isDue: bool)
      requires n < |providers| && DistinctSlugs(providers)
      requires CheckedSoFar(due, before, checks, start, end, n) && start <= end <= at
      requires isDue <==> IsDue(StampOf(before, providers[n].slug), at, interval)
      ensures var due' := if isDue then due + [providers[n]] else due;
        CheckedSoFar(due', before, checks[providers[n].slug := at], start, at, n + 1)
    {
      hide IsDue, StampOf, First;
      FirstNext(providers, n);
      if isDue {
        FirstOfExtension(due, providers[n]);
      }
    }

    /** The comprehension over the providers, one clock reading each. */
    method DueProviders() returns (due: seq<Provider>, ghost checks: map<Slug, int>)
      requires Ready()
      modifies clock
      ensures old(clock.now) <= clock.now
      ensures CheckedSoFar(due, database.committed, checks, old(clock.now), clock.now, |providers|)
    {
      hide IsDue, StampOf, CheckedSoFar;
      due, checks := [], map[];
      NobodyChecked(clock.now);
      for i := 0 to |providers|
        invariant old(clock.now) <= clock.now
        invariant CheckedSoFar(due, database.committed, checks, old(clock.now), clock.now, i)
      {
        ghost var end := clock.now;
        var isDue, at := StaticRefreshDue(providers[i].slug);
        CheckedNext(due, database.committed, checks, old(clock.now), end, at, i, isDue);
        checks := checks[providers[i].slug := at];
        if isDue {
          due := due + [providers[i]];
        }
      }
    }

    lemma NobodyChecked(now: int)
      ensures CheckedSoFar([], database.committed, map[], now, now, 0)
    {
    }

    // ---------------------------------------------------------------- the tasks of one cycle

    static ghost predicate Partition(all: set<Slug>, a: set<Slug>, b: set<Slug>, c: set<Slug>, d: set<Slug>) {
      all == a + b + c + d && a !! b && a !! c && a !! d && b !! c && b !! d && c !! d
    }

    static lemma MoveFromFirst(all: set<Slug>, a: set<Slug>, b: set<Slug>, c: set<Slug>, d: set<Slug>, s: Slug)
      requires Partition(all, a, b, c, d) && s in a
      ensures Partition(all, a - {s}, b + {s}, c, d) && Partition(all, a - {s}, b, c + {s}, d)
      ensures s !in b && s !in c && s !in d
    {
    }

    static lemma MoveFromSecond(all: set<Slug>, a: set<Slug>, b: set<Slug>, c: set<Slug>, d: set<Slug>, s: Slug)
      requires Partition(all, a, b, c, d) && s in b
      ensures Partition(all, a, b - {s}, c + {s}, d) && Partition(all, a, b - {s}, c, d + {s})
      ensures s !in a && s !in c && s !in d
    {
    }

    /** The worker's database for a provider holds the schedule that the world's archives make. */
    static ghost predicate IsStaged(world: Slug -> World, slug: Slug, staged: Tables) {
      Builds(world(slug).schedule) && StaticOf(staged, slug) == BuiltRows(slug, world(slug).schedule)
    }

    /** Where a provider is, is what the world has made of it so far. */
    static ghost predicate AsAnswered(world: Slug -> World, building: set<Slug>, updating: map<Slug, Tables>,
                                      failures: set<Slug>, installed: set<Slug>) {
      (forall s :: s in building ==> !world(s).schedule.UrlsUnresolved?) &&
      (forall s :: s in updating ==> IsStaged(world, s, updating[s])) &&
      (forall s :: s in failures ==> !ScheduleArrives(world(s).schedule)) &&
      forall s :: s in installed ==> ScheduleArrives(world(s).schedule)
    }

    static lemma AnsweredAfterBuild(world: Slug -> World, building: set<Slug>, updating: map<Slug, Tables>,
                                    failures: set<Slug>, installed: set<Slug>, slug: Slug, staged: Tables)
      requires AsAnswered(world, building, updating, failures, installed)
      ensures !Builds(world(slug).schedule) ==>
              AsAnswered(world, building - {slug}, updating, failures + {slug}, installed)
      ensures IsStaged(world, slug, staged) ==>
              AsAnswered(world, building - {slug}, updating[slug := staged], failures, installed)
    {
      hide IsStaged, Builds;
    }

    static lemma AnsweredAfterInstall(world: Slug -> World, building: set<Slug>, updating: map<Slug, Tables>,
                                      failures: set<Slug>, installed: set<Slug>, slug: Slug)
      requires AsAnswered(world, building, updating, failures, installed)
      ensures ScheduleArrives(world(slug).schedule) ==>
                AsAnswered(world, building, updating - {slug}, failures, installed + {slug})
      ensures !ScheduleArrives(world(slug).schedule) ==>
                AsAnswered(world, building, updating - {slug}, failures + {slug}, installed)
      ensures slug in updating ==> IsStaged(world, slug, updating[slug])
    {
      hide IsStaged, ScheduleArrives;
    }

    /** Every started provider is in exactly one place: being built, being installed, failed, or installed. */
    static ghost predicate Tracked(world: Slug -> World, due: seq<Provider>, next: nat, building: map<Slug, string>,
                                   updating: map<Slug, Tables>, failures: set<Slug>, log: seq<Commit>) {
      next <= |due| && DistinctSlugs(due) &&
      Partition(First(due, next), building.Keys, updating.Keys, failures, LogSlugs(log)) &&
      AsAnswered(world, building.Keys, updating, failures, LogSlugs(log))
    }

    static lemma StartTracked(world: Slug -> World, due: seq<Provider>, next: nat, building: map<Slug, string>,
                              updating: map<Slug, Tables>, failures: set<Slug>, log: seq<Commit>, city: string)
      requires Tracked(world, due, next, building, updating, failures, log) && next < |due|
      ensures var slug := due[next].slug;
        if world(slug).schedule.UrlsUnresolved?
        then Tracked(world, due, next + 1, building, updating, failures + {slug}, log)
        else Tracked(world, due, next + 1, building[slug := city], updating, failures, log)
      ensures due[next].slug !in building && due[next].slug !in updating
      ensures due[next].slug !in failures && due[next].slug !in LogSlugs(log)
    {
      hide First, LogSlugs, IsStaged;
      FirstNext(due, next);
      AddKey(building, due[next].slug, city);
    }

    static lemma RemoveKey<V>(m: map<Slug, V>, k: Slug)
      requires k in m
      ensures (m - {k}).Keys == m.Keys - {k} && |m - {k}| < |m|
    {
      assert |(m - {k}).Keys| == |m.Keys - {k}|;
    }

    static lemma AddKey<V>(m: map<Slug, V>, k: Slug, v: V)
      ensures m[k := v].Keys == m.Keys + {k}
    {
    }

    /** A build that fails is a failure, and one that succeeds waits for its install. */
    static lemma BuildTracked(world: Slug -> World, due: seq<Provider>, next: nat, building: map<Slug, string>,
                              updating: map<Slug, Tables>, failures: set<Slug>, log: seq<Commit>, slug: Slug,
                              staged: Tables)
      requires Tracked(world, due, next, building, updating, failures, log) && slug in building
      ensures slug !in updating && slug !in failures && slug !in LogSlugs(log)
      ensures !Builds(world(slug).schedule) ==>
                Tracked(world, due, next, building - {slug}, updating, failures + {slug}, log)
      ensures IsStaged(world, slug, staged) ==>
                Tracked(world, due, next, building - {slug}, updating[slug := staged], failures, log)
    {
      hide First, LogSlugs, IsStaged, Partition, Builds, AsAnswered, ScheduleArrives;
      RemoveKey(building, slug);
      AddKey(updating, slug, staged);
      AnsweredAfterBuild(world, building.Keys, updating, failures, LogSlugs(log), slug, staged);
      MoveFromFirst(First(due, next), building.Keys, updating.Keys, failures, LogSlugs(log), slug);
    }

    /** A waiting install ends as a failure or in the log, as the world has it. */
    static lemma InstallTracked(world: Slug -> World, due: seq<Provider>, next: nat, building: map<Slug, string>,
                                updating: map<Slug, Tables>, failures: set<Slug>, log: seq<Commit>, slug: Slug,
                                c: Commit)
      requires Tracked(world, due, next, building, updating, failures, log) && slug in updating && c.slug == slug
      ensures slug !in building && slug !in failures && slug !in LogSlugs(log) && IsStaged(world, slug, updating[slug])
      ensures ScheduleArrives(world(slug).schedule) ==>
                Tracked(world, due, next, building, updating - {slug}, failures, log + [c])
      ensures !ScheduleArrives(world(slug).schedule) ==>
                Tracked(world, due, next, building, updating - {slug}, failures + {slug}, log)
    {
      LogSlugsNext(log, c);
      hide First, LogSlugs, IsStaged, Partition, Builds, AsAnswered, ScheduleArrives;
      RemoveKey(updating, slug);
      AnsweredAfterInstall(world, building.Keys, updating, failures, LogSlugs(log), slug);
      MoveFromSecond(First(due, next), building.Keys, updating.Keys, failures, LogSlugs(log), slug);
    }

    static lemma LogSlugsNext(log: seq<Commit>, c: Commit)
      ensures LogSlugs(log + [c]) == LogSlugs(log) + {c.slug}
    {
      assert forall d :: d in log + [c] <==> d in log || d == c;
    }

    /** A started provider is one of the due ones. */
    static lemma TrackedIsDue(world: Slug -> World, due: seq<Provider>, next: nat, building: map<Slug, string>,
                              updating: map<Slug, Tables>, failures: set<Slug>, log: seq<Commit>, slug: Slug)
      requires Tracked(world, due, next, building, updating, failures, log) && (slug in building || slug in updating)
      ensures slug in First(due, |due|)
    {
      assert slug in First(due, next);
    }

    /** The installs so far: of distinct checked providers, stamped after their checks, from the world's archives. */
    static ghost predicate LogFine(world: Slug -> World, before: Tables, now: Tables, checks: map<Slug, int>,
                                   clockNow: int, log: seq<Commit>) {
      now == Replay(before, log) && DistinctInstalls(log) && InTimeOrder(log) &&
        now.providers.Keys == before.providers.Keys &&
      forall c :: c in log ==> c.slug in checks && checks[c.slug] <= c.now <= clockNow && FromWorld(world, c)
    }

    static lemma LogExtends(world: Slug -> World, before: Tables, now: Tables, now': Tables, checks: map<Slug, int>,
                            clockNow: int, at: int, log: seq<Commit>, slug: Slug, staged: Tables)
      requires LogFine(world, before, now, checks, clockNow, log) && slug !in LogSlugs(log)
      requires slug in checks && checks[slug] <= at && clockNow <= at && IsStaged(world, slug, staged)
      requires now' == Installed(now, slug, StaticOf(staged, slug), at)
      ensures LogFine(world, before, now', checks, at, log + [InstallCommit(slug, StaticOf(staged, slug), at)])
    {
      var c := InstallCommit(slug, StaticOf(staged, slug), at);
      hide Installed, Replay, Builds, BuiltRows, StaticOf, OverlayOf, StaticRowsOf, DistinctInstalls, OthersUntouched;
      OwnRows(staged, slug);
      InstalledMeaning(now, slug, c.rows, at);
      ReplayNext(before, log, c);
      DistinctNext(log, c);
      OrderNext(log, c);
      assert forall d :: d in log + [c] <==> d in log || d == c;
    }

    static lemma OrderNext(log: seq<Commit>, c: Commit)
      requires InTimeOrder(log) && !c.EnsureCommit? && forall d :: d in log ==> d.EnsureCommit? || d.now <= c.now
      ensures InTimeOrder(log + [c])
    {
      forall i | 0 <= i < |log| ensures log[i].EnsureCommit? || log[i].now <= c.now {
        assert log[i] in log;
      }
    }

    static lemma OwnRows(t: Tables, slug: Slug)
      ensures StaticRowsOf(StaticOf(t, slug), slug)
    {
    }

    static lemma DistinctNext(log: seq<Commit>, c: Commit)
      requires DistinctInstalls(log) && c.InstallCommit? && StaticRowsOf(c.rows, c.slug) && c.slug !in LogSlugs(log)
      ensures DistinctInstalls(log + [c])
    {
      hide StaticRowsOf;
      forall i | 0 <= i < |log| ensures log[i].slug != c.slug {
        assert log[i] in log;
      }
    }

    static lemma LaterClock(world: Slug -> World, before: Tables, now: Tables, checks: map<Slug, int>, clockNow: int,
                            later: int, log: seq<Commit>)
      requires LogFine(world, before, now, checks, clockNow, log) && clockNow <= later
      ensures LogFine(world, before, now, checks, later, log)
    {
    }

    /** What /status says of a provider while schedules are refreshed; was is what it said before. */
    static function ScheduleStatus(was: Status, s: Slug, building: set<Slug>, arriving: set<Slug>,
                                   failures: set<Slug>): Status {
      if s in failures then Status(s, Failed, 0.0)
      else if s in building then Status(s, DownloadingSchedule, 0.25)
      else if s in arriving then Status(s, UpdatingSchedule, 0.75)
      else was
    }

    static ghost predicate Shown(was: map<Slug, Status>, now: map<Slug, Status>, building: set<Slug>,
                                 arriving: set<Slug>, failures: set<Slug>) {
      now.Keys == was.Keys && forall s :: s in now ==> now[s] == ScheduleStatus(was[s], s, building, arriving, failures)
    }

    /** Resolve one provider's URLs; a failure is recorded, otherwise its build is started. */
    method StartProvider(world: Slug -> World, due: seq<Provider>, next: nat, building: map<Slug, string>,
                         ghost updating: map<Slug, Tables>, failures: set<Slug>, ghost log: seq<Commit>,
                         ghost was: map<Slug, Status>)
        returns (building': map<Slug, string>, failures': set<Slug>)
      requires Ready() && next < |due| && due[next].slug in Slugs()
      requires Tracked(world, due, next, building, updating, failures, log)
      requires Shown(was, tracker.statuses, building.Keys, updating.Keys + LogSlugs(log), failures)
      modifies tracker
      ensures Ready()
      ensures Tracked(world, due, next + 1, building', updating, failures', log)
      ensures Shown(was, tracker.statuses, building'.Keys, updating.Keys + LogSlugs(log), failures')
      ensures tracker.statuses[due[next].slug] ==
              if world(due[next].slug).schedule.UrlsUnresolved? then Status(due[next].slug, Failed, 0.0)
              else Status(due[next].slug, DownloadingSchedule, 0.25)
    {
      hide Tracked, LogSlugs;
      var provider := due[next];
      StartTracked(world, due, next, building, updating, failures, log, provider.city);
      SetStatus(provider.slug, DownloadingSchedule, 0.0);
      if world(provider.slug).schedule.UrlsUnresolved? {
        SetStatus(provider.slug, Failed, 0.0);
        return building, failures + {provider.slug};
      }
      SetStatus(provider.slug, DownloadingSchedule, 0.25);
      return building[provider.slug := provider.city], failures;
    }

    /** A build ends: it failed, or its database waits to be installed. */
    method FinishBuild(world: Slug -> World, ghost due: seq<Provider>, ghost next: nat, building: map<Slug, string>,
                       updating: map<Slug, Tables>, failures: set<Slug>, slug: Slug, ghost log: seq<Commit>,
                       ghost was: map<Slug, Status>)
        returns (updating': map<Slug, Tables>, failures': set<Slug>)
      requires Ready() && slug in building && slug in Slugs() && !world(slug).schedule.UrlsUnresolved?
      requires Tracked(world, due, next, building, updating, failures, log)
      requires Shown(was, tracker.statuses, building.Keys, updating.Keys + LogSlugs(log), failures)
      modifies tracker
      ensures Ready()
      ensures Tracked(world, due, next, building - {slug}, updating', failures', log)
      ensures Shown(was, tracker.statuses, building.Keys - {slug}, updating'.Keys + LogSlugs(log), failures')
      ensures tracker.statuses[slug] ==
              if Builds(world(slug).schedule) then Status(slug, UpdatingSchedule, 0.75) else Status(slug, Failed, 0.0)
    {
      hide Tracked, StaticOf, Builds, BuiltRows, LogSlugs;
      var built := BuildInWorker(slug, building[slug], world(slug).schedule);
      ghost var staged := if built.Success? then built.value.1 else EMPTY_TABLES;
      BuildTracked(world, due, next, building, updating, failures, log, slug, staged);
      if built.Failure? || built.value.0 != slug {
        SetStatus(slug, Failed, 0.0);
        return updating, failures + {slug};
      }
      SetStatus(slug, UpdatingSchedule, 0.75);
      return updating[slug := built.value.1], failures;
    }

    /** A waiting install gets its turn with the writer lock. */
    method FinishInstall(world: Slug -> World, ghost due: seq<Provider>, ghost next: nat,
                         ghost building: map<Slug, string>, updating: map<Slug, Tables>, failures: set<Slug>,
                         slug: Slug, ghost before: Tables, ghost checks: map<Slug, int>, ghost log: seq<Commit>,
                         ghost was: map<Slug, Status>)
        returns (failures': set<Slug>, ghost log': seq<Commit>)
      requires Ready() && slug in updating && slug in Slugs() && slug in checks && checks[slug] <= clock.now
      requires slug in database.committed.providers && world(slug).schedule.Downloaded?
      requires Tracked(world, due, next, building, updating, failures, log)
      requires LogFine(world, before, database.committed, checks, clock.now, log)
      requires Shown(was, tracker.statuses, building.Keys, updating.Keys + LogSlugs(log), failures)
      modifies database, tracker, clock
      ensures Ready() && old(clock.now) <= clock.now
      ensures Tracked(world, due, next, building, updating - {slug}, failures', log')
      ensures LogFine(world, before, database.committed, checks, clock.now, log')
      ensures Shown(was, tracker.statuses, building.Keys, (updating.Keys - {slug}) + LogSlugs(log'), failures')
      ensures tracker.statuses[slug] ==
              if world(slug).schedule.raisesAt.Some? then Status(slug, Failed, 0.0) else old(tracker.statuses)[slug]
    {
      hide Installed, LogFine, Tracked, StaticOf, LogSlugs, Builds, BuiltRows, StaticRowsOf;
      failures', log' := failures, log;
      var failed;
      ghost var at;
      failed, at := InstallBuilt(slug, updating[slug], world(slug).schedule.raisesAt);
      ghost var c := InstallCommit(slug, StaticOf(updating[slug], slug), at);
      InstallTracked(world, due, next, building, updating, failures, log, slug, c);
      if failed {
        failures' := failures + {slug};
        LaterClock(world, before, database.committed, checks, old(clock.now), clock.now, log);
      } else {
        log' := log + [c];
        LogSlugsNext(log, c);
        LogExtends(world, before, old(database.committed), database.committed, checks, old(clock.now), at, log, slug,
                   updating[slug]);
        LaterClock(world, before, database.committed, checks, at, clock.now, log');
      }
    }

    /**
     * _refresh_static_feeds. The event loop may start the next provider, let a finished build move on, or
     * let a waiting install run, in any order, until nothing is left.
     */
    method RefreshStaticFeeds(world: Slug -> World)
        returns (failures: set<Slug>, ghost checks: map<Slug, int>, ghost log: seq<Commit>)
      requires Ready() && Slugs() <= database.committed.providers.Keys
      modifies database, tracker, clock
      ensures Ready()
      ensures StaticPhase(interval, Slugs(), world, old(database.committed), database.committed,
                          old(clock.now), clock.now, checks, log, failures)
      ensures Shown(old(tracker.statuses), tracker.statuses, {}, LogSlugs(log), failures)
    {
      hide CheckedSoFar, Tracked, LogFine, StaticPhase, Shown, LogSlugs, Slugs, Ready, First, DistinctSlugs, StaticOf;
      ghost var before, was := database.committed, tracker.statuses;
      var due;
      due, checks := DueProviders();
      ghost var checked := clock.now;
      failures, log := {}, [];
      var next := 0;
      var building: map<Slug, string> := map[];
      var updating: map<Slug, Tables> := map[];
      NothingStarted(world, due, before, checks, old(clock.now), checked, was);
      assert building.Keys == {} && updating.Keys + LogSlugs(log) == {};
      while
        invariant Ready() && checked <= clock.now && 0 <= next <= |due|
        invariant Tracked(world, due, next, building, updating, failures, log)
        invariant LogFine(world, before, database.committed, checks, clock.now, log)
        invariant Shown(was, tracker.statuses, building.Keys, updating.Keys + LogSlugs(log), failures)
        decreases |due| - next, |building|, |updating|
      {
        case next < |due| =>
          NextKnown(due, before, checks, old(clock.now), checked, next);
          building, failures := StartProvider(world, due, next, building, updating, failures, log, was);
          next := next + 1;
        case building != map[] =>
          var slug: Slug :| slug in building;
          StartedKnown(world, due, next, building, updating, failures, log, slug, before, database.committed, checks,
                       old(clock.now), checked, clock.now);
          RemoveKey(building, slug);
          updating, failures := FinishBuild(world, due, next, building, updating, failures, slug, log, was);
          building := building - {slug};
        case updating != map[] =>
          var slug: Slug :| slug in updating;
          StartedKnown(world, due, next, building, updating, failures, log, slug, before, database.committed, checks,
                       old(clock.now), checked, clock.now);
          RemoveKey(updating, slug);
          failures, log :=
            FinishInstall(world, due, next, building, updating, failures, slug, before, checks, log, was);
          updating := updating - {slug};
      }
      assert building.Keys == {} && updating.Keys + LogSlugs(log) == LogSlugs(log);
      PhaseDone(world, due, before, database.committed, old(clock.now), checked, clock.now, checks, log, failures);
    }

    lemma NothingStarted(world: Slug -> World, due: seq<Provider>, before: Tables, checks: map<Slug, int>, start: int,
                         now: int, was: map<Slug, Status>)
      requires CheckedSoFar(due, before, checks, start, now, |providers|)
      ensures Tracked(world, due, 0, map[], map[], {}, []) && LogFine(world, before, before, checks, now, [])
      ensures Shown(was, was, {}, {}, {}) && LogSlugs([]) == {}
    {
    }

    /** Every due provider is configured. */
    lemma NextKnown(due: seq<Provider>, before: Tables, checks: map<Slug, int>, start: int, checked: int, next: nat)
      requires CheckedSoFar(due, before, checks, start, checked, |providers|) && next < |due|
      ensures due[next].slug in Slugs()
    {
      assert due[next].slug in First(due, |due|);
      assert First(providers, |providers|) == Slugs();
    }

    /** A started provider is configured and has been checked, its URLs were resolved, and its row is still there. */
    lemma StartedKnown(world: Slug -> World, due: seq<Provider>, next: nat, building: map<Slug, string>,
                       updating: map<Slug, Tables>, failures: set<Slug>, log: seq<Commit>, slug: Slug, before: Tables,
                       now: Tables, checks: map<Slug, int>, start: int, checked: int, clockNow: int)
      requires Tracked(world, due, next, building, updating, failures, log) && (slug in building || slug in updating)
      requires LogFine(world, before, now, checks, clockNow, log) && Slugs() <= before.providers.Keys
      requires CheckedSoFar(due, before, checks, start, checked, |providers|) && checked <= clockNow
      ensures slug in Slugs() && slug in checks && checks[slug] <= clockNow && slug in now.providers
      ensures slug in building ==> !world(slug).schedule.UrlsUnresolved?
      ensures slug in updating ==> world(slug).schedule.Downloaded?
    {
      hide Replay, DistinctInstalls, LogSlugs, IsDue, StampOf;
      TrackedIsDue(world, due, next, building, updating, failures, log, slug);
      assert First(providers, |providers|) == Slugs();
    }

    lemma PhaseDone(world: Slug -> World, due: seq<Provider>, before: Tables, after: Tables, start: int, checked: int,
                    end: int, checks: map<Slug, int>, log: seq<Commit>, failures: set<Slug>)
      requires start <= checked <= end && CheckedSoFar(due, before, checks, start, checked, |providers|)
      requires Tracked(world, due, |due|, map[], map[], failures, log) &&
               LogFine(world, before, after, checks, end, log)
      ensures StaticPhase(interval, Slugs(), world, before, after, start, end, checks, log, failures)
    {
      hide Replay, IsDue, StampOf, DistinctInstalls, ScheduleArrives, FromWorld;
      assert First(providers, |providers|) == Slugs();
      forall c | c in log ensures c.slug in Slugs() {
        assert c.slug in LogSlugs(log);
        assert c.slug in First(due, |due|);
      }
    }

    // ---------------------------------------------------------------- auxiliary data

    /** The part of _refresh_auxiliary_data under the first write connection. */
    method RefreshRealtime(slug: Slug, feeds: seq<FeedMessage>, raises: bool) returns (ok: bool, ghost log: seq<Commit>)
      requires !database.locked
      modifies database, clock
      ensures !database.locked && old(clock.now) <= clock.now
      ensures ok <==> DelaysArrive(zone, Messages(feeds, raises))
      ensures ok ==> |log| == 1 && IsRefreshOf(log[0], slug, feeds, old(clock.now), clock.now)
      ensures !ok ==> log == []
      ensures database.committed == Replay(old(database.committed), log) &&
              AdmissibleLog(zone, old(database.committed), log)
    {
      hide OverlayFrom, Refreshed, WithOverlay, Gather, Representable, AdmissibleLog;
      log := [];
      NothingCommitted(database.committed);
      ghost var before := database.committed;
      var connection := database.Begin();
      var overlay;
      ok, overlay := ReplaceRealtimeDelays(connection, slug, zone, feeds, TRIP_ID_BATCH_SIZE);
      if !ok || raises {
        database.Rollback();
        return false, log;
      }
      var at := clock.Read();
      connection.tables := StampRealtime(connection.tables, slug, at);
      database.Commit(connection);
      log := [RefreshCommit(slug, feeds, overlay, at)];
      OneRefresh(before, slug, feeds, overlay, at);
    }

    lemma OneRefresh(before: Tables, slug: Slug, feeds: seq<FeedMessage>, overlay: OverlayRows, at: int)
      requires OverlayFrom(before, slug, zone, feeds, overlay)
      ensures var log := [RefreshCommit(slug, feeds, overlay, at)];
        Replay(before, log) == StampRealtime(WithOverlay(before, slug, overlay), slug, at) &&
          AdmissibleLog(zone, before, log)
    {
      hide Gather, NearestDelays, WithOverlay;
      var c := RefreshCommit(slug, feeds, overlay, at);
      ReplayNext(before, [], c);
      assert [] + [c] == [c];
      assert OverlayRowsOf(overlay, slug);
      AdmissibleNext(zone, before, [], c);
    }

    /** What /status says when the auxiliary refresh of a provider ends, wherever it ends. */
    static ghost function AuxiliaryStatus(zone: Zone, was: Status, slug: Slug, w: World): Status {
      if w.delays.UrlsRaise? then was
      else if w.delays.DownloadFails? then Status(slug, DownloadingDelays, 0.0)
      else if w.delays.Messages? && !DelaysArrive(zone, w.delays) then Status(slug, UpdatingDelays, 0.75)
      else if w.machines.MachinesNotDownloaded? then Status(slug, DownloadingMachines, 0.0)
      else if !w.machines.NoMachines? then Status(slug, UpdatingMachines, 0.75)
      else if w.delays.Messages? then Status(slug, UpdatingDelays, 0.75)
      else was
    }

    /**
     * _refresh_auxiliary_data: delays first, then ticket machines, which this model's tables leave out. An overlay
     * stays committed when the machines fail after it.
     */
    method RefreshAuxiliaryData(provider: Provider, world: World) returns (ok: bool, ghost log: seq<Commit>)
      requires Ready() && provider.slug in Slugs()
      modifies database, tracker, clock
      ensures Ready() && old(clock.now) <= clock.now
      ensures tracker.statuses.Keys == old(tracker.statuses.Keys)
      ensures forall s :: s in tracker.statuses && s != provider.slug ==>
              tracker.statuses[s] == old(tracker.statuses)[s]
      ensures provider.slug in tracker.statuses &&
              tracker.statuses[provider.slug] ==
              AuxiliaryStatus(zone, old(tracker.statuses)[provider.slug], provider.slug, world)
      ensures ok <==> AuxiliaryArrives(zone, world)
      ensures if DelaysArrive(zone, world.delays)
              then |log| == 1 && IsRefreshOf(log[0], provider.slug, world.delays.feeds, old(clock.now), clock.now)
              else log == []
      ensures database.committed == Replay(old(database.committed), log) &&
              AdmissibleLog(zone, old(database.committed), log)
    {
      hide AdmissibleLog, Representable, Gather;
      NothingCommitted(database.committed);
      log := [];
      if world.delays.UrlsRaise? {
        return false, log;
      }
      if !world.delays.NoUrls? {
        SetStatus(provider.slug, DownloadingDelays, 0.0);
        if world.delays.DownloadFails? {
          return false, log;
        }
        SetStatus(provider.slug, UpdatingDelays, 0.75);
        ok, log := RefreshRealtime(provider.slug, world.delays.feeds, world.delays.raises);
        if !ok {
          return;
        }
      }
      if !world.machines.NoMachines? {
        SetStatus(provider.slug, DownloadingMachines, 0.0);
        if world.machines.MachinesNotDownloaded? {
          return false, log;
        }
        SetStatus(provider.slug, UpdatingMachines, 0.75);
        if world.machines.MachinesRejected? {
          return false, log;
        }
      }
      ok := true;
    }

    lemma NothingCommitted(t: Tables)
      ensures Replay(t, []) == t && AdmissibleLog(zone, t, [])
    {
    }

    // ---------------------------------------------------------------- the cycle

    /** _ensure_provider. */
    method EnsureProvider(provider: Provider)
      requires !database.locked
      modifies database
      ensures !database.locked && database.committed == Ensured(old(database.committed), provider.slug, provider.city)
    {
      var connection := database.Begin();
      var rows := connection.tables.providers;
      if provider.slug !in rows {
        connection.tables :=
          connection.tables.(providers := rows[provider.slug := ProviderRow(provider.city, Never, Never)]);
      }
      database.Commit(connection);
    }

    /** The provider keeps its row; a new one has this city and no timestamps. */
    static ghost predicate HasRow(before: Tables, after: Tables, slug: Slug, city: string) {
      slug in after.providers &&
      after.providers[slug] ==
      if slug in before.providers then before.providers[slug] else ProviderRow(city, Never, Never)
    }

    static ghost predicate SameRow(before: Tables, after: Tables, slug: Slug) {
      (slug in after.providers <==> slug in before.providers) &&
      (slug in before.providers ==> after.providers[slug] == before.providers[slug])
    }

    static lemma RowsSame(t: Tables)
      ensures forall slug :: SameRow(t, t, slug)
    {
    }

    static lemma RowsNext(before: Tables, mid: Tables, list: seq<Provider>, i: nat)
      requires DistinctSlugs(list) && i < |list|
      requires forall j :: 0 <= j < i ==> HasRow(before, mid, list[j].slug, list[j].city)
      requires forall j :: i <= j < |list| ==> SameRow(before, mid, list[j].slug)
      ensures var after := Ensured(mid, list[i].slug, list[i].city);
        (forall j :: 0 <= j < i + 1 ==> HasRow(before, after, list[j].slug, list[j].city)) &&
        forall j :: i + 1 <= j < |list| ==> SameRow(before, after, list[j].slug)
    {
      assert SameRow(before, mid, list[i].slug);
    }

    lemma EnsuredPrepares(before: Tables, mid: Tables, slugs: set<Slug>, log: seq<Commit>, slug: Slug, city: string)
      requires Prepared(slugs, before, mid, log)
      ensures Prepared(slugs + {slug}, before, Ensured(mid, slug, city), log + [EnsureCommit(slug, city)])
    {
      ReplayNext(before, log, EnsureCommit(slug, city));
      var after := Ensured(mid, slug, city);
      forall s
        ensures StampOf(after, s) == StampOf(mid, s) && StaticOf(after, s) == StaticOf(mid, s) &&
                OverlayOf(after, s) == OverlayOf(mid, s)
      {
      }
    }

    /** The overlays so far: those of the first n providers. */
    ghost predicate Overlaid(world: Slug -> World, before: Tables, now: Tables, start: int, end: int, log: seq<Commit>,
                             failures: set<Slug>, n: nat) {
      n <= |providers| && OverlayPhase(zone, First(providers, n), world, before, now, start, end, log, failures)
    }

    lemma NothingOverlaid(world: Slug -> World, t: Tables, now: int)
      ensures Overlaid(world, t, t, now, now, [], {}, 0)
    {
    }

    /** One more provider whose delays do not arrive. */
    static lemma OverlaysSkip(zone: Zone, slugs: set<Slug>, world: Slug -> World, start: int, end: int, end': int,
                              log: seq<Commit>, s: Slug)
      requires OverlaysOf(zone, slugs, world, start, end, log) && end <= end' && !DelaysArrive(zone, world(s).delays)
      ensures OverlaysOf(zone, slugs + {s}, world, start, end', log)
    {
      hide DelaysArrive, LogSlugs, InTimeOrder;
    }

    /** One more provider, and its overlay. */
    static lemma OverlaysAdd(zone: Zone, slugs: set<Slug>, world: Slug -> World, start: int, end: int, end': int,
                             log: seq<Commit>, c: Commit)
      requires OverlaysOf(zone, slugs, world, start, end, log) && start <= end <= end' && c.slug !in slugs
      requires DelaysArrive(zone, world(c.slug).delays) && IsRefreshOf(c, c.slug, world(c.slug).delays.feeds, end, end')
      ensures OverlaysOf(zone, slugs + {c.slug}, world, start, end', log + [c])
    {
      OrderNext(log, c);
      LogSlugsNext(log, c);
      hide DelaysArrive, LogSlugs, InTimeOrder;
      assert forall d :: d in log + [c] <==> d in log || d == c;
      forall i | 0 <= i < |log| ensures log[i].slug != c.slug {
        assert log[i] in log;
      }
    }

    lemma OverlaidNext(world: Slug -> World, before: Tables, now: Tables, now': Tables, start: int, end: int, end': int,
                       log: seq<Commit>, failures: set<Slug>, n: nat, more: seq<Commit>, ok: bool)
      requires n < |providers| && DistinctSlugs(providers) && start <= end <= end'
      requires Overlaid(world, before, now, start, end, log, failures, n)
      requires now' == Replay(now, more) && AdmissibleLog(zone, now, more)
      requires ok <==> AuxiliaryArrives(zone, world(providers[n].slug))
      requires if DelaysArrive(zone, world(providers[n].slug).delays)
               then |more| == 1 &&
                 IsRefreshOf(more[0], providers[n].slug, world(providers[n].slug).delays.feeds, end, end')
               else more == []
      ensures var failures' := if ok then failures else failures + {providers[n].slug};
        Overlaid(world, before, now', start, end', log + more, failures', n + 1)
    {
      hide Replay, AdmissibleLog, DelaysArrive, AuxiliaryArrives, First, OverlaysOf;
      LogsConcat(before, log, more);
      FirstNext(providers, n);
      var slug := providers[n].slug;
      if DelaysArrive(zone, world(slug).delays) {
        assert log + more == log + [more[0]];
        OverlaysAdd(zone, First(providers, n), world, start, end, end', log, more[0]);
      } else {
        assert log + more == log;
        OverlaysSkip(zone, First(providers, n), world, start, end, end', log, slug);
      }
    }

    /** The first loop of refresh_all. */
    method EnsureProviders() returns (ghost log: seq<Commit>)
      requires Ready()
      modifies database
      ensures Ready() && Prepared(Slugs(), old(database.committed), database.committed, log)
      ensures Slugs() <= database.committed.providers.Keys
      ensures forall i :: 0 <= i < |providers| ==>
              HasRow(old(database.committed), database.committed, providers[i].slug, providers[i].city)
    {
      hide Ensured, Prepared, First, HasRow, SameRow;
      ghost var before := database.committed;
      log := [];
      NobodyPrepared(before);
      RowsSame(before);
      for i := 0 to |providers|
        invariant Ready() && Prepared(First(providers, i), before, database.committed, log)
        invariant forall j :: 0 <= j < i ==>
          HasRow(before, database.committed, providers[j].slug, providers[j].city)
        invariant forall j :: i <= j < |providers| ==> SameRow(before, database.committed, providers[j].slug)
      {
        FirstNext(providers, i);
        RowsNext(before, database.committed, providers, i);
        EnsuredPrepares(before, database.committed, First(providers, i), log, providers[i].slug, providers[i].city);
        EnsureProvider(providers[i]);
        log := log + [EnsureCommit(providers[i].slug, providers[i].city)];
      }
      AllProviders();
      PreparedRows(Slugs(), before, database.committed, log);
    }

    /** The second loop of refresh_all: each provider's auxiliary data, and then its final status. */
    method RefreshOverlays(world: Slug -> World, staticFailures: set<Slug>)
        returns (ghost log: seq<Commit>, ghost failures: set<Slug>)
      requires Ready()
      modifies database, tracker, clock
      ensures Ready() && old(clock.now) <= clock.now
      ensures Overlaid(world, old(database.committed), database.committed, old(clock.now), clock.now, log, failures,
                       |providers|)
      ensures forall s :: s in Slugs() ==>
              s in tracker.statuses && tracker.statuses[s] == FinalStatus(s, staticFailures, failures)
    {
      hide Overlaid, AdmissibleLog, Replay, First, DelaysArrive, AuxiliaryArrives, IsRefreshOf;
      log, failures := [], {};
      ghost var before, start := database.committed, clock.now;
      NothingOverlaid(world, before, start);
      NobodyPrepared(before);
      for i := 0 to |providers|
        invariant Ready() && start <= clock.now && failures <= First(providers, i)
        invariant Overlaid(world, before, database.committed, start, clock.now, log, failures, i)
        invariant forall s :: s in First(providers, i) ==>
          s in tracker.statuses && tracker.statuses[s] == FinalStatus(s, staticFailures, failures)
      {
        FirstNext(providers, i);
        var slug := providers[i].slug;
        assert slug in Slugs();
        ghost var committed, reading := database.committed, clock.now;
        var ok;
        ghost var more;
        ok, more := RefreshAuxiliaryData(providers[i], world(slug));
        OverlaidNext(world, before, committed, database.committed, start, reading, clock.now, log, failures, i, more,
                     ok);
        log := log + more;
        if !ok {
          SetStatus(slug, Failed, 0.0);
          failures := failures + {slug};
          continue;
        }
        if slug in staticFailures {
          SetStatus(slug, Failed, 0.0);
        } else {
          SetStatus(slug, Valid, 1.0);
        }
      }
      AllProviders();
    }

    /**
     * refresh_all: one provider's failure never stops the others. At the end every provider is VALID with
     * progress 1.0 or FAILED with 0.0, as its static and auxiliary refreshes went in this cycle.
     */
    method RefreshAll(world: Slug -> World) returns (ghost cycle: Cycle)
      requires Ready()
      modifies database, tracker, clock
      ensures Ready()
      ensures cycle.world == world && cycle.before == old(database.committed) && cycle.after == database.committed
      ensures cycle.start == old(clock.now) && cycle.end == clock.now
      ensures CycleFine(zone, interval, Slugs(), cycle)
      ensures forall s :: s in Slugs() ==>
              tracker.statuses[s] ==
              if s in cycle.staticFailures || s in cycle.auxFailures then Status(s, Failed, 0.0)
              else Status(s, Valid, 1.0)
    {
      hide StaticPhase, Overlaid, Prepared, Shown;
      ghost var before := database.committed;
      ghost var ensured := EnsureProviders();
      ghost var mid, start := database.committed, clock.now;
      var staticFailures;
      ghost var checks, installs;
      staticFailures, checks, installs := RefreshStaticFeeds(world);
      ghost var afterStatic, staticEnd := database.committed, clock.now;
      ghost var overlays, auxFailures;
      overlays, auxFailures := RefreshOverlays(world, staticFailures);
      cycle := Cycle(world, before, mid, afterStatic, database.committed, start, staticEnd, clock.now, checks,
                     ensured, installs, overlays, staticFailures, auxFailures);
      CycleDone(cycle);
    }

    lemma CycleDone(c: Cycle)
      requires Prepared(Slugs(), c.before, c.mid, c.ensured) && c.staticEnd <= c.end
      requires StaticPhase(interval, Slugs(), c.world, c.mid, c.afterStatic, c.start, c.staticEnd, c.checks,
                           c.installs, c.staticFailures)
      requires Overlaid(c.world, c.afterStatic, c.after, c.staticEnd, c.end, c.overlays, c.auxFailures, |providers|)
      ensures CycleFine(zone, interval, Slugs(), c)
    {
      hide OverlayPhase, StaticPhase, Prepared;
      AllProviders();
    }

    lemma PreparedRows(slugs: set<Slug>, before: Tables, mid: Tables, log: seq<Commit>)
      requires Prepared(slugs, before, mid, log)
      ensures slugs <= mid.providers.Keys
    {
    }

    lemma NobodyPrepared(t: Tables)
      ensures First(providers, 0) == {}
      ensures Prepared(First(providers, 0), t, t, [])
    {
    }

    lemma AllProviders()
      ensures First(providers, |providers|) == Slugs()
    {
    }

    lemma {:induction false} LogsConcat(init: Tables, a: seq<Commit>, b: seq<Commit>)
      requires AdmissibleLog(zone, init, a) && AdmissibleLog(zone, Replay(init, a), b)
      ensures Replay(init, a + b) == Replay(Replay(init, a), b) && AdmissibleLog(zone, init, a + b)
    {
      hide Admissible, Apply, AdmissibleLog;
      if b == [] {
        assert a + b == a;
      } else {
        var n := |b| - 1;
        AdmissiblePrefix(zone, Replay(init, a), b, n);
        LogsConcat(init, a, b[..n]);
        assert a + b == a + b[..n] + [b[n]];
        ReplayNext(init, a + b[..n], b[n]);
        AdmissibleNext(zone, init, a + b[..n], b[n]);
      }
    }
  }
}
