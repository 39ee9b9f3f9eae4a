/** What refresh cycles guarantee over whole runs of the service. */
module RefreshRuns {
  import opened Calendar
  import opened Text
  import opened Schema
  import opened StaticImport
  import opened FeedMeaning
  import opened Observations
  import opened Realtime
  import opened MessageMeaning
  import opened Commits
  import opened ProviderStatus
  import opened Refresh
  import opened DepartureQuery
  import opened StopList

  /** Between two cycles the program may be restarted, any number of times; nothing else writes. */
  ghost predicate Restarted(before: Tables, after: Tables) { exists n: nat :: after == StartedTimes(before, n) }

  /** Cycles one after another, by a clock that does not run backwards. */
  ghost predicate IsRun(zone: Zone, interval: int, slugs: set<Slug>, cycles: seq<Cycle>) {
    (forall i :: 0 <= i < |cycles| ==> CycleFine(zone, interval, slugs, cycles[i])) &&
    forall i :: 0 <= i < |cycles| - 1 ==>
      Restarted(cycles[i].after, cycles[i + 1].before) && cycles[i].end <= cycles[i + 1].start
  }

  /** A restart renames stops and changes nothing else. */
  lemma RestartKeeps(before: Tables, after: Tables, slug: Slug)
    requires Restarted(before, after)
    ensures StampOf(after, slug) == StampOf(before, slug)
    ensures TimesCapped(after, slug) == TimesCapped(before, slug)
    ensures after.departures == before.departures && after.serviceDates == before.serviceDates
    ensures OverlayOf(after, slug) == OverlayOf(before, slug)
  {
    var n: nat :| after == StartedTimes(before, n);
    StoredNamesAfterStarts(before, n);
    hide StartedTimes;
  }

  /** The provider has the same schedule, but for names of stops that restarts have normalised. */
  ghost predicate SameUpToRestarts(a: Tables, b: Tables, slug: Slug) {
    exists n: nat :: StaticOf(b, slug) == StaticOf(StartedTimes(a, n), slug)
  }

  lemma RestartKeepsUpToRestarts(a: Tables, b: Tables, c: Tables, slug: Slug)
    requires SameUpToRestarts(a, b, slug) && Restarted(b, c)
    ensures SameUpToRestarts(a, c, slug)
  {
    hide StaticOf, StartedTimes;
    var m: nat :| StaticOf(b, slug) == StaticOf(StartedTimes(a, m), slug);
    var n: nat :| c == StartedTimes(b, n);
    StartsDependOnOwnSchedule(b, StartedTimes(a, m), slug, n);
    StartsAddUp(a, m, n);
  }

  // ---------------------------------------------------------------- the service itself

  lemma NoRestart(t: Tables)
    ensures Restarted(t, t)
  {
    assert StartedTimes(t, 0) == t;
  }

  lemma OneRestart(t: Tables)
    ensures Restarted(t, Started(t))
  {
    assert StartedTimes(t, 0) == t;
    assert Started(t) == StartedTimes(t, 1);
  }

  lemma RestartsAddUp(a: Tables, b: Tables, c: Tables)
    requires Restarted(a, b) && Restarted(b, c)
    ensures Restarted(a, c)
  {
    hide StartedTimes;
    var m: nat :| b == StartedTimes(a, m);
    var n: nat :| c == StartedTimes(b, n);
    StartsAddUp(a, m, n);
  }

  lemma RunNext(zone: Zone, interval: int, slugs: set<Slug>, cycles: seq<Cycle>, c: Cycle)
    requires IsRun(zone, interval, slugs, cycles) && CycleFine(zone, interval, slugs, c)
    requires cycles != [] ==> Restarted(cycles[|cycles| - 1].after, c.before) && cycles[|cycles| - 1].end <= c.start
    ensures IsRun(zone, interval, slugs, cycles + [c])
  {
    hide CycleFine, Restarted;
  }

  /** A start of the program: initialize, and a service whose statuses are all PENDING. */
  method Start(database: Database, clock: Clock, zone: Zone, providers: seq<Provider>, interval: int)
      returns (service: RefreshService)
    requires !database.locked && RefreshService.DistinctSlugs(providers)
    modifies database
    ensures fresh(service) && fresh(service.tracker) && service.Ready()
    ensures service.database == database && service.clock == clock && service.zone == zone
    ensures service.providers == providers && service.interval == interval
    ensures Restarted(old(database.committed), database.committed)
  {
    OneRestart(database.committed);
    database.Initialize();
    service := new RefreshService(database, providers, interval, clock, zone);
  }

  /**
   * The lifespan of the program and _refresh_forever, for as many cycles as there are worlds: start, then one
   * refresh_all after another. Before any of them the program may be stopped and started again.
   */
  method Serve(database: Database, clock: Clock, zone: Zone, providers: seq<Provider>, interval: int,
               worlds: seq<Slug -> World>)
      returns (ghost cycles: seq<Cycle>)
    requires !database.locked && RefreshService.DistinctSlugs(providers)
    modifies database, clock
    ensures !database.locked && |cycles| == |worlds|
    ensures IsRun(zone, interval, RefreshService.First(providers, |providers|), cycles)
    ensures forall i :: 0 <= i < |cycles| ==> cycles[i].world == worlds[i]
    ensures cycles == [] ==> Restarted(old(database.committed), database.committed)
    ensures cycles != [] ==>
              Restarted(old(database.committed), cycles[0].before) && cycles[|cycles| - 1].after == database.committed
  {
    hide CycleFine, Restarted, IsRun;
    ghost var slugs := RefreshService.First(providers, |providers|);
    cycles := [];
    EmptyRun(zone, interval, slugs);
    var service := Start(database, clock, zone, providers, interval);
    for i := 0 to |worlds|
      invariant fresh(service) && fresh(service.tracker) && service.Ready()
      invariant service.database == database && service.clock == clock && service.zone == zone
      invariant service.providers == providers && service.interval == interval
      invariant |cycles| == i && IsRun(zone, interval, slugs, cycles)
      invariant forall j :: 0 <= j < i ==> cycles[j].world == worlds[j]
      invariant i == 0 ==> Restarted(old(database.committed), database.committed)
      invariant i > 0 ==> Restarted(old(database.committed), cycles[0].before)
      invariant i > 0 ==> cycles[i - 1].after == database.committed && cycles[i - 1].end <= clock.now
    {
      ghost var stopped := database.committed;
      NoRestart(stopped);
      var restart: bool := *;
      if restart {
        service := Start(database, clock, zone, providers, interval);
      }
      if i == 0 { RestartsAddUp(old(database.committed), stopped, database.committed); }
      service.AllProviders();
      ghost var cycle := service.RefreshAll(worlds[i]);
      RunNext(zone, interval, slugs, cycles, cycle);
      cycles := cycles + [cycle];
    }
  }

  lemma EmptyRun(zone: Zone, interval: int, slugs: set<Slug>)
    ensures IsRun(zone, interval, slugs, [])
  {
  }

  /** The cycle committed an install of the provider, stamped at. */
  ghost predicate Installs(c: Cycle, slug: Slug, at: int) {
    exists i :: i in c.installs && i.InstallCommit? && i.slug == slug && i.now == at
  }

  // ---------------------------------------------------------------- one cycle

  lemma {:induction false} OverlaysKeepSchedules(zone: Zone, t: Tables, log: seq<Commit>, slug: Slug)
    requires AdmissibleLog(zone, t, log) && forall c :: c in log ==> c.RefreshCommit?
    ensures StaticOf(Replay(t, log), slug) == StaticOf(t, slug)
    ensures StampOf(Replay(t, log), slug) == StampOf(t, slug)
  {
    hide StaticOf, OverlayOf, Refreshed, AdmissibleLog, OverlayFrom;
    if log != [] {
      var n := |log| - 1;
      AdmissiblePrefix(zone, t, log, n);
      OverlaysKeepSchedules(zone, t, log[..n], slug);
      var c := log[n];
      RefreshedMeaning(Replay(t, log[..n]), c.slug, c.overlay, c.now);
    }
  }

  lemma StampOfInstalls(init: Tables, log: seq<Commit>, slug: Slug)
    requires DistinctInstalls(log) && slug in init.providers
    ensures forall c :: c in log && c.slug == slug ==> StampOf(Replay(init, log), slug) == At(c.now)
    ensures slug !in LogSlugs(log) ==> StampOf(Replay(init, log), slug) == StampOf(init, slug)
  {
    hide StaticOf, OverlayOf, Replay, DistinctInstalls;
    InstallsMeaning(init, log, slug);
  }

  lemma AllInstalls(log: seq<Commit>, c: Commit)
    requires DistinctInstalls(log) && c in log
    ensures c.InstallCommit?
  {
  }

  lemma LoggedMeansInstalled(c: Cycle, slug: Slug)
    requires DistinctInstalls(c.installs) && slug in LogSlugs(c.installs)
    ensures exists at :: Installs(c, slug, at)
  {
    var i :| i in c.installs && i.slug == slug;
    AllInstalls(c.installs, i);
    assert Installs(c, slug, i.now);
  }

  /** Which answers bring a schedule, told on the cells of the archives. */
  lemma ScheduleArrivesExactly(a: ScheduleAnswer)
    ensures ScheduleArrives(a) <==>
            a.Downloaded? && a.raisesAt.None? && a.archives != [] &&
            forall i :: 0 <= i < |a.archives| ==>
              a.archives[i].Some? && IsReadable(a.archives[i].value) && NumbersFit(a.archives[i].value)
  {
    hide NumbersFit, Importable, StopsRead, RoutesRead, TripsRead, ServicesRead, StopTimesRead;
    if a.Downloaded? {
      forall i | 0 <= i < |a.archives| && a.archives[i].Some?
        ensures Importable(a.archives[i].value) <==> IsReadable(a.archives[i].value) && NumbersFit(a.archives[i].value)
      {
        ImportableExactly(a.archives[i].value);
      }
    }
  }

  /** Which answers bring delays, told on the messages: their versions are not blank, and their times have dates. */
  lemma DelaysArriveExactly(zone: Zone, a: DelaysAnswer)
    ensures DelaysArrive(zone, a) <==>
            a.Messages? && !a.raises &&
            (forall m :: m in a.feeds ==>
              m.isInitialized && exists i :: 0 <= i < |m.version| && !IsSpace(m.version[i])) &&
            forall k, x :: FeedsSay(a.feeds, Expected, k, x) ==>
              2 <= 719163 + (x + zone.atInstant(x)) / 86400 <= 3652058
  {
    hide Gather, FeedsSay, Representable, HasHeader;
    if a.Messages? {
      TimesHaveDates(zone, a.feeds);
      forall m ensures HasHeader(m) <==> m.isInitialized && exists i :: 0 <= i < |m.version| && !IsSpace(m.version[i]) {
        HeaderIsProper(m);
      }
    }
  }

  lemma HeaderIsProper(m: FeedMessage)
    ensures HasHeader(m) <==> m.isInitialized && exists i :: 0 <= i < |m.version| && !IsSpace(m.version[i])
  {
  }

  lemma TimesHaveDates(zone: Zone, feeds: seq<FeedMessage>)
    ensures Representable(zone, Gather(feeds).estimated) <==>
            forall k, x :: FeedsSay(feeds, Expected, k, x) ==> 2 <= 719163 + (x + zone.atInstant(x)) / 86400 <= 3652058
  {
    hide Gather, FeedsSay;
    var estimated := Gather(feeds).estimated;
    forall k, x ensures FeedsSay(feeds, Expected, k, x) <==> k in estimated && estimated[k] == x {
      GatheredExactly(feeds, k, x);
    }
    forall k | k in estimated ensures FeedsSay(feeds, Expected, k, estimated[k]) {}
  }

  /**
   * A cycle installs a provider exactly when it is due and its schedule arrives, with a stamp after its due check,
   * and then the schedule is what the importer makes of its archives. Otherwise schedule and stamp are left alone,
   * and it is a failure exactly when it was due.
   */
  lemma CycleOutcome(zone: Zone, interval: int, slugs: set<Slug>, c: Cycle, slug: Slug)
    requires CycleFine(zone, interval, slugs, c) && slug in slugs
    ensures slug in c.checks && c.start <= c.checks[slug] <= c.end
    ensures (exists at :: Installs(c, slug, at)) <==>
            IsDue(StampOf(c.before, slug), c.checks[slug], interval) && ScheduleArrives(c.world(slug).schedule)
    ensures forall at :: Installs(c, slug, at) ==>
              StampOf(c.after, slug) == At(at) && c.checks[slug] <= at <= c.end && slug !in c.staticFailures &&
              StaticOf(c.after, slug) == BuiltRows(slug, c.world(slug).schedule)
    ensures (forall at :: !Installs(c, slug, at)) ==>
              StampOf(c.after, slug) == StampOf(c.before, slug) &&
                StaticOf(c.after, slug) == StaticOf(c.before, slug) &&
              (slug in c.staticFailures <==> IsDue(StampOf(c.before, slug), c.checks[slug], interval))
  {
    hide StaticOf, OverlayOf, IsDue, StampOf, Replay, AdmissibleLog, DistinctInstalls, Builds, BuiltRows, IsRefreshOf,
         OverlaysOf, InTimeOrder;
    assert forall o :: o in c.overlays ==> o.RefreshCommit? by { AllRefreshes(zone, interval, slugs, c); }
    OverlaysKeepSchedules(zone, c.afterStatic, c.overlays, slug);
    StampOfInstalls(c.mid, c.installs, slug);
    InstallsMeaning(c.mid, c.installs, slug);
    if slug in LogSlugs(c.installs) { LoggedMeansInstalled(c, slug); }
    forall at | Installs(c, slug, at) ensures slug in LogSlugs(c.installs) {
      var i :| i in c.installs && i.InstallCommit? && i.slug == slug && i.now == at;
    }
  }

  lemma AllRefreshes(zone: Zone, interval: int, slugs: set<Slug>, c: Cycle)
    requires CycleFine(zone, interval, slugs, c)
    ensures forall o :: o in c.overlays ==> o.RefreshCommit?
  {
    hide StaticPhase, Prepared, Replay, AdmissibleLog;
  }

  /**
   * The overlay after a cycle: when the delays arrive, what their messages make of the schedule now installed; else
   * nothing after an install, and what it was without one.
   */
  lemma OverlayOutcome(zone: Zone, interval: int, slugs: set<Slug>, c: Cycle, slug: Slug)
    requires CycleFine(zone, interval, slugs, c) && slug in slugs
    ensures DelaysArrive(zone, c.world(slug).delays) ==>
              OverlayFrom(c.after, slug, zone, c.world(slug).delays.feeds, OverlayOf(c.after, slug))
    ensures !DelaysArrive(zone, c.world(slug).delays) && (exists at :: Installs(c, slug, at)) ==>
            OverlayOf(c.after, slug) == NO_OVERLAY
    ensures !DelaysArrive(zone, c.world(slug).delays) && (forall at :: !Installs(c, slug, at)) ==>
              OverlayOf(c.after, slug) == OverlayOf(c.before, slug)
  {
    hide StaticOf, OverlayOf, IsDue, StampOf, Replay, AdmissibleLog, DistinctInstalls, FromWorld, DelaysArrive,
         OverlayFrom;
    OverlayFitsInstalledSchedule(zone, c.afterStatic, c.overlays, slug);
    LastOfOverlays(c.overlays, slug);
    InstallsMeaning(c.mid, c.installs, slug);
    if slug in LogSlugs(c.installs) {
      LoggedMeansInstalled(c, slug);
      var i :| i in c.installs && i.slug == slug;
    }
    forall at | Installs(c, slug, at) ensures slug in LogSlugs(c.installs) {
      var i :| i in c.installs && i.InstallCommit? && i.slug == slug && i.now == at;
    }
  }

  lemma {:induction false} LastOfOverlays(log: seq<Commit>, slug: Slug)
    requires forall c :: c in log ==> c.RefreshCommit?
    ensures slug in LogSlugs(log) ==>
              LastCommit(log, slug).Some? && LastCommit(log, slug).value in log &&
                LastCommit(log, slug).value.slug == slug
    ensures slug !in LogSlugs(log) ==> LastCommit(log, slug).None?
  {
    if log != [] {
      var n := |log| - 1;
      LastOfOverlays(log[..n], slug);
      assert log == log[..n] + [log[n]];
      RefreshService.LogSlugsNext(log[..n], log[n]);
    }
  }

  /** The provider has a readable timestamp from less than an interval before its due check. */
  predicate IsRecent(interval: int, c: Cycle, slug: Slug)
    requires slug in c.checks
  {
    slug in c.before.providers && c.before.providers[slug].staticUpdated.At? &&
    c.checks[slug] - c.before.providers[slug].staticUpdated.instant < interval
  }

  /**
   * Gating, told on the clock: a provider whose schedule is recent is neither installed nor a failure; any other is
   * installed in this cycle if its schedule arrives, and a failure if not.
   */
  lemma GatingExactly(zone: Zone, interval: int, slugs: set<Slug>, c: Cycle, slug: Slug)
    requires CycleFine(zone, interval, slugs, c) && slug in slugs
    ensures slug in c.checks && c.start <= c.checks[slug] <= c.end
    ensures (exists at :: Installs(c, slug, at)) <==>
            !IsRecent(interval, c, slug) && ScheduleArrives(c.world(slug).schedule)
    ensures slug in c.staticFailures <==> !IsRecent(interval, c, slug) && !ScheduleArrives(c.world(slug).schedule)
  {
    hide CycleFine, StaticOf, ScheduleArrives, BuiltRows, Installs;
    CycleOutcome(zone, interval, slugs, c, slug);
  }

  /**
   * What an install publishes, told on the cells of the archives: the provider's stops and departures are those of the
   * last archive that has a row that counts for them, and a service runs when it does in any archive.
   */
  lemma PublishedExactly(zone: Zone, interval: int, slugs: set<Slug>, c: Cycle, slug: Slug, at: int, stop: StopKey,
                         stopRow: StopRow, departure: DepartureKey, departureRow: DepartureRow, date: ServiceDate)
    requires CycleFine(zone, interval, slugs, c) && slug in slugs && Installs(c, slug, at)
    requires stop.slug == departure.slug == date.slug == slug
    ensures var a := c.world(slug).schedule;
      a.Downloaded? && AllImportable(a.archives) &&
      (stop in c.after.stops && c.after.stops[stop] == stopRow <==> ProvidesStop(a.archives, slug, stop, stopRow)) &&
      (departure in c.after.departures && c.after.departures[departure] == departureRow <==>
       ProvidesDeparture(a.archives, slug, departure, departureRow)) &&
      (date in c.after.serviceDates <==> ProvidesDate(a.archives, slug, date))
  {
    hide CycleFine, AllImportable, Installs, ProvidesStop, ProvidesDeparture, ProvidesDate, StaticOf, OverlayOf;
    CycleOutcome(zone, interval, slugs, c, slug);
    var a := c.world(slug).schedule;
    OwnRow(c.after, slug, stop, departure, date);
    MergedStops(slug, a.archives, stop, stopRow);
    MergedDepartures(slug, a.archives, departure, departureRow);
    MergedDates(slug, a.archives, date);
  }

  lemma OwnRow(t: Tables, slug: Slug, stop: StopKey, departure: DepartureKey, date: ServiceDate)
    requires stop.slug == departure.slug == date.slug == slug
    ensures var own := StaticOf(t, slug);
      (stop in own.stops <==> stop in t.stops) && (stop in own.stops ==> own.stops[stop] == t.stops[stop]) &&
      (departure in own.departures <==> departure in t.departures) &&
      (departure in own.departures ==> own.departures[departure] == t.departures[departure]) &&
      (date in own.serviceDates <==> date in t.serviceDates)
  {
  }

  /** VALID says exactly that nothing failed: the schedule is recent or arrived, and so did the auxiliary data. */
  lemma ValidExactly(zone: Zone, interval: int, slugs: set<Slug>, c: Cycle, slug: Slug)
    requires CycleFine(zone, interval, slugs, c) && slug in slugs
    ensures slug in c.checks
    ensures FinalStatus(slug, c.staticFailures, c.auxFailures) ==
            if (IsRecent(interval, c, slug) || ScheduleArrives(c.world(slug).schedule)) &&
               AuxiliaryArrives(zone, c.world(slug))
            then Status(slug, Valid, 1.0) else Status(slug, Failed, 0.0)
  {
    hide StaticOf, OverlayOf, IsRecent, StampOf, Replay, AdmissibleLog, DistinctInstalls, FromWorld, DelaysArrive,
         ScheduleArrives, AuxiliaryArrives, StaticPhase, OverlaysOf;
    GatingExactly(zone, interval, slugs, c, slug);
  }

  /** So VALID means that the provider's overlay is this cycle's, or that it has no realtime feeds. */
  lemma ValidMeansRefreshed(zone: Zone, interval: int, slugs: set<Slug>, c: Cycle, slug: Slug)
    requires CycleFine(zone, interval, slugs, c) && slug in slugs
    requires FinalStatus(slug, c.staticFailures, c.auxFailures).state.Valid?
    ensures c.world(slug).delays.NoUrls? ||
            (c.world(slug).delays.Messages? &&
              OverlayFrom(c.after, slug, zone, c.world(slug).delays.feeds, OverlayOf(c.after, slug)))
    ensures c.world(slug).delays.Messages? ==>
              exists o :: o in c.overlays && IsRefreshOf(o, slug, c.world(slug).delays.feeds, c.staticEnd, c.end)
  {
    hide CycleFine, IsRecent, ScheduleArrives, OverlayFrom, OverlayOf;
    ValidExactly(zone, interval, slugs, c, slug);
    OverlayOutcome(zone, interval, slugs, c, slug);
    if c.world(slug).delays.Messages? { RefreshLogged(zone, interval, slugs, c, slug); }
  }

  lemma RefreshLogged(zone: Zone, interval: int, slugs: set<Slug>, c: Cycle, slug: Slug)
    requires CycleFine(zone, interval, slugs, c) && slug in slugs && DelaysArrive(zone, c.world(slug).delays)
    ensures exists o :: o in c.overlays && IsRefreshOf(o, slug, c.world(slug).delays.feeds, c.staticEnd, c.end)
  {
    hide StaticPhase, Prepared, Replay, AdmissibleLog, Representable, IsRefreshOf;
    var o :| o in c.overlays && o.slug == slug;
    assert IsRefreshOf(o, slug, c.world(slug).delays.feeds, c.staticEnd, c.end);
  }

  /** A provider reported VALID has an installed schedule. */
  lemma ValidHasSchedule(zone: Zone, interval: int, slugs: set<Slug>, c: Cycle, slug: Slug)
    requires CycleFine(zone, interval, slugs, c) && slug in slugs && slug !in c.staticFailures
    ensures StampOf(c.after, slug).At?
  {
    CycleOutcome(zone, interval, slugs, c, slug);
    if at :| Installs(c, slug, at) {
      assert StampOf(c.after, slug) == At(at);
    }
  }

  // ---------------------------------------------------------------- many cycles

  /** The stamp before a cycle that follows an install is at least as late as that install. */
  lemma {:induction false} StampsGrow(zone: Zone, interval: int, slugs: set<Slug>, cycles: seq<Cycle>, i: nat, j: nat,
                                      slug: Slug, at: int)
    requires IsRun(zone, interval, slugs, cycles) && slug in slugs && i < j < |cycles| && Installs(cycles[i], slug, at)
    ensures StampOf(cycles[j].before, slug).At? && at <= StampOf(cycles[j].before, slug).instant <= cycles[j].start
    decreases j
  {
    hide CycleFine, StampOf, IsDue, StaticOf, Installs, ScheduleArrives, Restarted, TimesCapped, OverlayOf;
    var c := cycles[j - 1];
    CycleOutcome(zone, interval, slugs, c, slug);
    assert Restarted(c.after, cycles[j - 1 + 1].before) && c.end <= cycles[j - 1 + 1].start;
    RestartKeeps(c.after, cycles[j].before, slug);
    if i < j - 1 {
      StampsGrow(zone, interval, slugs, cycles, i, j - 1, slug, at);
      if later :| Installs(c, slug, later) {
        assert StampOf(c.after, slug) == At(later);
      }
    }
  }

  /** Gating: two committed installs of one provider are at least the refresh interval apart. */
  lemma InstallsAreApart(zone: Zone, interval: int, slugs: set<Slug>, cycles: seq<Cycle>, i: nat, j: nat, slug: Slug,
                         first: int, second: int)
    requires IsRun(zone, interval, slugs, cycles) && slug in slugs && i < j < |cycles|
    requires Installs(cycles[i], slug, first) && Installs(cycles[j], slug, second)
    ensures second - first >= interval
  {
    hide CycleFine, StampOf;
    StampsGrow(zone, interval, slugs, cycles, i, j, slug, first);
    CycleOutcome(zone, interval, slugs, cycles[j], slug);
  }

  /** And within one cycle a provider is installed at most once. */
  lemma OneInstallPerCycle(zone: Zone, interval: int, slugs: set<Slug>, c: Cycle, slug: Slug, first: int, second: int)
    requires CycleFine(zone, interval, slugs, c) && slug in slugs && Installs(c, slug, first) &&
             Installs(c, slug, second)
    ensures first == second
  {
    hide CycleFine, StampOf;
    CycleOutcome(zone, interval, slugs, c, slug);
    assert StampOf(c.after, slug) == At(first) == At(second);
  }

  ghost predicate NoInstalls(cycles: seq<Cycle>, i: nat, j: nat, slug: Slug) {
    forall k, at :: i <= k < j && k < |cycles| ==> !Installs(cycles[k], slug, at)
  }

  /** Without an install the provider keeps its rows and its stamp through any number of cycles and restarts. */
  lemma {:induction false} KeepsSchedule(zone: Zone, interval: int, slugs: set<Slug>, cycles: seq<Cycle>, i: nat,
                                         j: nat, slug: Slug)
    requires IsRun(zone, interval, slugs, cycles) && slug in slugs && i <= j < |cycles| &&
             NoInstalls(cycles, i, j, slug)
    ensures StampOf(cycles[j].before, slug) == StampOf(cycles[i].before, slug)
    ensures SameUpToRestarts(cycles[i].before, cycles[j].before, slug)
    ensures cycles[i].start <= cycles[j].start
    decreases j
  {
    hide CycleFine, StampOf, StaticOf, OverlayOf, Installs, IsDue, Restarted, SameUpToRestarts, TimesCapped;
    if i == j {
      NoRestartSame(cycles[i].before, slug);
    } else {
      KeepsSchedule(zone, interval, slugs, cycles, i, j - 1, slug);
      var last := cycles[j - 1];
      CycleOutcome(zone, interval, slugs, last, slug);
      assert Restarted(last.after, cycles[j - 1 + 1].before) && last.end <= cycles[j - 1 + 1].start;
      RestartKeeps(last.after, cycles[j].before, slug);
      SameSchedulesUpToRestarts(cycles[i].before, last.before, last.after, slug);
      RestartKeepsUpToRestarts(cycles[i].before, last.after, cycles[j].before, slug);
    }
  }

  lemma NoRestartSame(t: Tables, slug: Slug)
    ensures SameUpToRestarts(t, t, slug)
  {
    hide StaticOf;
    assert StartedTimes(t, 0) == t;
  }

  lemma SameSchedulesUpToRestarts(a: Tables, b: Tables, c: Tables, slug: Slug)
    requires SameUpToRestarts(a, b, slug) && StaticOf(b, slug) == StaticOf(c, slug)
    ensures SameUpToRestarts(a, c, slug)
  {
    hide StaticOf, StartedTimes;
  }

  /** A provider whose static refresh failed is due again in every later cycle until an install commits. */
  lemma FailedIsRetried(zone: Zone, interval: int, slugs: set<Slug>, cycles: seq<Cycle>, i: nat, j: nat, slug: Slug)
    requires IsRun(zone, interval, slugs, cycles) && slug in slugs && i < j < |cycles|
    requires slug in cycles[i].staticFailures && NoInstalls(cycles, i, j, slug)
    ensures SameUpToRestarts(cycles[i].before, cycles[j].before, slug)
    ensures StampOf(cycles[j].before, slug) == StampOf(cycles[i].before, slug)
    ensures slug in cycles[j].checks && !IsRecent(interval, cycles[j], slug)
    ensures slug in cycles[j].staticFailures || exists at :: Installs(cycles[j], slug, at)
  {
    hide CycleFine, StaticOf, Installs, Restarted, SameUpToRestarts, ScheduleArrives;
    KeepsSchedule(zone, interval, slugs, cycles, i, j, slug);
    KeepsSchedule(zone, interval, slugs, cycles, i + 1, j, slug);
    GatingExactly(zone, interval, slugs, cycles[i], slug);
    GatingExactly(zone, interval, slugs, cycles[j], slug);
    assert cycles[i].end <= cycles[i + 1].start;
  }

  /** From a database that never had the provider's schedule, a stamp can only come from an install of the run. */
  lemma {:induction false} StampComesFromInstall(zone: Zone, interval: int, slugs: set<Slug>, cycles: seq<Cycle>,
                                                 j: nat, slug: Slug)
    requires IsRun(zone, interval, slugs, cycles) && slug in slugs && j < |cycles| &&
             StampOf(cycles[0].before, slug).Never?
    ensures StampOf(cycles[j].after, slug).At? ==>
              exists i :: 0 <= i <= j && Installs(cycles[i], slug, StampOf(cycles[j].after, slug).instant)
    ensures StampOf(cycles[j].after, slug).At? || StampOf(cycles[j].after, slug).Never?
    decreases j
  {
    hide CycleFine, StampOf, StaticOf;
    CycleOutcome(zone, interval, slugs, cycles[j], slug);
    if j > 0 {
      StampComesFromInstall(zone, interval, slugs, cycles, j - 1, slug);
      assert Restarted(cycles[j - 1].after, cycles[j - 1 + 1].before);
      RestartKeeps(cycles[j - 1].after, cycles[j].before, slug);
    }
    if at :| Installs(cycles[j], slug, at) {
      assert StampOf(cycles[j].after, slug) == At(at);
    }
  }

  /** So VALID, from such a database, means that some cycle so far has committed an install. */
  lemma ValidMeansInstalled(zone: Zone, interval: int, slugs: set<Slug>, cycles: seq<Cycle>, j: nat, slug: Slug)
    requires IsRun(zone, interval, slugs, cycles) && slug in slugs && j < |cycles| &&
             StampOf(cycles[0].before, slug).Never?
    requires FinalStatus(slug, cycles[j].staticFailures, cycles[j].auxFailures).state.Valid?
    ensures exists i, at :: 0 <= i <= j && Installs(cycles[i], slug, at)
  {
    hide CycleFine, StampOf;
    ValidHasSchedule(zone, interval, slugs, cycles[j], slug);
    StampComesFromInstall(zone, interval, slugs, cycles, j, slug);
  }

  // ---------------------------------------------------------------- the 48-hour cap of what is installed

  ghost predicate RowsCapped(rows: StaticRows) {
    forall k :: k in rows.departures ==> 0 <= rows.departures[k].scheduledSeconds < TIME_LIMIT
  }

  lemma CappedByRows(t: Tables, slug: Slug)
    ensures TimesCapped(t, slug) <==> RowsCapped(StaticOf(t, slug))
  {
    var own := StaticOf(t, slug);
    assert forall k :: k in own.departures <==> k in t.departures && k.slug == slug;
  }

  lemma BuiltRowsCapped(slug: Slug, a: ScheduleAnswer)
    requires Builds(a)
    ensures RowsCapped(BuiltRows(slug, a))
  {
    var rows := BuiltRows(slug, a);
    forall k | k in rows.departures ensures 0 <= rows.departures[k].scheduledSeconds < TIME_LIMIT {
      ImportedTimes(slug, a.archives, k);
    }
  }

  lemma CycleKeepsCap(zone: Zone, interval: int, slugs: set<Slug>, c: Cycle, slug: Slug)
    requires CycleFine(zone, interval, slugs, c) && slug in slugs && TimesCapped(c.before, slug)
    ensures TimesCapped(c.after, slug)
  {
    hide CycleFine, TimesCapped, StaticOf, StampOf, IsDue, RowsCapped, BuiltRows;
    CappedByRows(c.before, slug);
    CappedByRows(c.after, slug);
    CycleOutcome(zone, interval, slugs, c, slug);
    if at :| Installs(c, slug, at) {
      BuiltRowsCapped(slug, c.world(slug).schedule);
    }
  }

  /**
   * Two service dates are always enough: in the tables after any cycle of a run that started without
   * the provider's departures, the query's date filter passes exactly what is not yet past.
   */
  lemma QueryWindowIsComplete(zone: Zone, interval: int, slugs: set<Slug>, cycles: seq<Cycle>, j: nat, q: Query,
                              k: DepartureKey, day: int)
    requires IsRun(zone, interval, slugs, cycles) && q.slug in slugs && j < |cycles|
    requires TimesCapped(cycles[0].before, q.slug) && 0 <= q.secondsToday < SECONDS_PER_DAY
    requires k in cycles[j].after.departures && k.slug == q.slug
    ensures DateMatches(q, day, cycles[j].after.departures[k].scheduledSeconds) <==>
            day <= q.today && Wall(day, cycles[j].after.departures[k].scheduledSeconds) >= Wall(q.today, q.secondsToday)
  {
    hide CycleFine, TimesCapped, DateMatches, Wall;
    RunKeepsCap(zone, interval, slugs, cycles, j, q.slug);
    TwoDatesSuffice(cycles[j].after, q, k, day);
  }

  lemma {:induction false} RunKeepsCap(zone: Zone, interval: int, slugs: set<Slug>, cycles: seq<Cycle>, j: nat,
                                       slug: Slug)
    requires IsRun(zone, interval, slugs, cycles) && slug in slugs && j < |cycles| &&
             TimesCapped(cycles[0].before, slug)
    ensures TimesCapped(cycles[j].after, slug)
    decreases j
  {
    hide CycleFine, TimesCapped;
    if j > 0 {
      RunKeepsCap(zone, interval, slugs, cycles, j - 1, slug);
      assert Restarted(cycles[j - 1].after, cycles[j - 1 + 1].before);
      RestartKeeps(cycles[j - 1].after, cycles[j].before, slug);
    }
    CycleKeepsCap(zone, interval, slugs, cycles[j], slug);
  }
}
