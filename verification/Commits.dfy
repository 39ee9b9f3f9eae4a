/**
 * The write transactions of app/core/refresh.py: the statements each one runs, and what it commits
 * as a whole.
 */
module Commits {
  import opened Prelude
  import opened Schema
  import opened Observations
  import opened Realtime

  // ---------------------------------------------------------------- _install_static_database

  function StampStatic(t: Tables, slug: Slug, now: int): Tables {
    if slug in t.providers then t.(providers := t.providers[slug := t.providers[slug].(staticUpdated := At(now))])
      else t
  }

  function StampRealtime(t: Tables, slug: Slug, now: int): Tables {
    if slug in t.providers then t.(providers := t.providers[slug := t.providers[slug].(realtimeUpdated := At(now))])
      else t
  }

  const INSTALL_STATEMENTS: nat := 9

  /** The k-th statement before the timestamp: six DELETEs, then the three copies. */
  function InstallStatement(t: Tables, slug: Slug, rows: StaticRows, k: nat): Result<Tables>
    requires k < INSTALL_STATEMENTS
  {
    if k < 6 then Success(Delete(t, PROVIDER_TABLES[k], slug))
    else if k == 6 then
      var stops :- CopyRows(t.stops, rows.stops);
      if AcceptsStops(t, slug, |rows.stops|) then Success(t.(stops := stops)) else Failure
    else if k == 7 then
      if t.serviceDates !! rows.serviceDates then Success(t.(serviceDates := t.serviceDates + rows.serviceDates))
        else Failure
    else
      var departures :- CopyRows(t.departures, rows.departures);
      Success(t.(departures := departures))
  }

  /** A statement fails exactly on a key that is already there, or on stops without their provider's row. */
  lemma InstallStatementFails(t: Tables, slug: Slug, rows: StaticRows, k: nat)
    requires k < INSTALL_STATEMENTS
    ensures InstallStatement(t, slug, rows, k).Failure? <==>
            (k == 6 && ((|rows.stops| > 0 && slug !in t.providers) || exists key ::
              key in t.stops && key in rows.stops)) ||
            (k == 7 && exists d :: d in t.serviceDates && d in rows.serviceDates) ||
            (k == 8 && exists key :: key in t.departures && key in rows.departures)
  {
    hide Delete;
  }

  function InstallPrefix(t: Tables, slug: Slug, rows: StaticRows, k: nat): Result<Tables>
    requires k <= INSTALL_STATEMENTS
  {
    if k == 0 then Success(t)
    else
      var before :- InstallPrefix(t, slug, rows, k - 1);
      InstallStatement(before, slug, rows, k - 1)
  }

  /** The provider's schedule replaced by rows, its overlay gone. */
  function WithSchedule(t: Tables, slug: Slug, rows: StaticRows): Tables {
    var c := Cleared(t, slug);
    c.(stops := c.stops + rows.stops, serviceDates := c.serviceDates + rows.serviceDates,
       departures := c.departures + rows.departures)
  }

  function Installed(t: Tables, slug: Slug, rows: StaticRows, now: int): Tables {
    StampStatic(WithSchedule(t, slug, rows), slug, now)
  }

  lemma {:induction false} InstallDeletes(t: Tables, slug: Slug, rows: StaticRows, k: nat)
    requires k <= 6
    ensures InstallPrefix(t, slug, rows, k) == Success(DeleteAll(t, PROVIDER_TABLES[..k], slug))
  {
    hide Delete;
    if k > 0 {
      InstallDeletes(t, slug, rows, k - 1);
      DeleteNext(t, k - 1, slug);
    }
  }

  /**
   * No statement of an install fails on a primary key, because the copies meet only other providers' rows; the
   * foreign key of the stops is all that can be violated, and is not when the provider has its row.
   */
  lemma InstallNeverConflicts(t: Tables, slug: Slug, rows: StaticRows, k: nat)
    requires StaticRowsOf(rows, slug) && k <= INSTALL_STATEMENTS
    ensures InstallPrefix(t, slug, rows, k).Success? <==> k <= 6 || AcceptsStops(t, slug, |rows.stops|)
    ensures k == INSTALL_STATEMENTS && AcceptsStops(t, slug, |rows.stops|) ==>
              InstallPrefix(t, slug, rows, k).value == WithSchedule(t, slug, rows)
  {
    if k <= 6 {
      InstallDeletes(t, slug, rows, k);
    } else {
      InstallDeletes(t, slug, rows, 6);
      assert PROVIDER_TABLES[..6] == PROVIDER_TABLES;
      DeleteAllClears(t, slug);
      InstallCopies(t, slug, rows);
      assert k == 7 || k == 8 || k == 9;
    }
  }

  lemma InstallCopies(t: Tables, slug: Slug, rows: StaticRows)
    requires StaticRowsOf(rows, slug) && InstallPrefix(t, slug, rows, 6) == Success(Cleared(t, slug))
    ensures AcceptsStops(t, slug, |rows.stops|) ==>
              InstallPrefix(t, slug, rows, 7).Success? && InstallPrefix(t, slug, rows, 8).Success? &&
              InstallPrefix(t, slug, rows, 9) == Success(WithSchedule(t, slug, rows))
    ensures !AcceptsStops(t, slug, |rows.stops|) ==>
              InstallPrefix(t, slug, rows, 7).Failure? && InstallPrefix(t, slug, rows, 8).Failure? &&
              InstallPrefix(t, slug, rows, 9).Failure?
  {
    hide Cleared;
    var c := Cleared(t, slug);
    ClearedHasNone(t, slug);
    if AcceptsStops(t, slug, |rows.stops|) {
      CopiesSucceed(t, c, slug, rows);
    } else {
      assert InstallPrefix(t, slug, rows, 7).Failure?;
    }
  }

  lemma CopiesSucceed(t: Tables, c: Tables, slug: Slug, rows: StaticRows)
    requires StaticRowsOf(rows, slug) && c == Cleared(t, slug) && InstallPrefix(t, slug, rows, 6) == Success(c)
    requires AcceptsStops(c, slug, |rows.stops|)
    ensures InstallPrefix(t, slug, rows, 7).Success? && InstallPrefix(t, slug, rows, 8).Success?
    ensures InstallPrefix(t, slug, rows, 9) == Success(WithSchedule(t, slug, rows))
  {
    hide Cleared, InstallPrefix, InstallStatement, StaticOf, OverlayOf, StaticRowsOf;
    ClearedMakesRoom(t, slug, rows);
    CopyStatements(c, slug, rows);
    PrefixNext(t, slug, rows, 6);
    PrefixNext(t, slug, rows, 7);
    PrefixNext(t, slug, rows, 8);
  }

  lemma ClearedMakesRoom(t: Tables, slug: Slug, rows: StaticRows)
    requires StaticRowsOf(rows, slug)
    ensures var c := Cleared(t, slug);
      c.stops.Keys !! rows.stops.Keys && c.serviceDates !! rows.serviceDates &&
        c.departures.Keys !! rows.departures.Keys
  {
    hide Cleared, StaticOf, OverlayOf;
    ClearedHasNone(t, slug);
  }

  lemma CopyStatements(c: Tables, slug: Slug, rows: StaticRows)
    requires c.stops.Keys !! rows.stops.Keys && c.serviceDates !! rows.serviceDates &&
             c.departures.Keys !! rows.departures.Keys
    requires AcceptsStops(c, slug, |rows.stops|)
    ensures var first := c.(stops := c.stops + rows.stops);
      var second := first.(serviceDates := c.serviceDates + rows.serviceDates);
      InstallStatement(c, slug, rows, 6) == Success(first) &&
        InstallStatement(first, slug, rows, 7) == Success(second) &&
      InstallStatement(second, slug, rows, 8) == Success(second.(departures := c.departures + rows.departures))
  {
    hide Delete, DeleteAll;
  }

  lemma PrefixNext(t: Tables, slug: Slug, rows: StaticRows, k: nat)
    requires k < INSTALL_STATEMENTS && InstallPrefix(t, slug, rows, k).Success?
    ensures InstallPrefix(t, slug, rows, k + 1) ==
            InstallStatement(InstallPrefix(t, slug, rows, k).value, slug, rows, k)
  {
    hide InstallStatement;
  }

  /** An install replaces one provider's schedule entirely, empties its overlay, and touches nobody else. */
  lemma InstalledMeaning(t: Tables, slug: Slug, rows: StaticRows, now: int)
    requires StaticRowsOf(rows, slug)
    ensures StaticOf(Installed(t, slug, rows, now), slug) == rows
    ensures OverlayOf(Installed(t, slug, rows, now), slug) == NO_OVERLAY
    ensures OthersUntouched(t, Installed(t, slug, rows, now), slug)
    ensures Installed(t, slug, rows, now).providers.Keys == t.providers.Keys
    ensures slug in t.providers ==>
              Installed(t, slug, rows, now).providers[slug] == t.providers[slug].(staticUpdated := At(now))
  {
    hide WithSchedule, StaticOf, OverlayOf;
    var w := WithSchedule(t, slug, rows);
    ScheduleOfInstalled(t, slug, rows);
    forall other | other != slug
      ensures StaticOf(w, other) == StaticOf(t, other) && OverlayOf(w, other) == OverlayOf(t, other)
    {
      OtherSchedules(t, slug, rows, other);
    }
    forall s
      ensures StaticOf(StampStatic(w, slug, now), s) == StaticOf(w, s) &&
              OverlayOf(StampStatic(w, slug, now), s) == OverlayOf(w, s)
    {
      StampKeepsRows(w, slug, now, s);
    }
  }

  lemma StampKeepsRows(t: Tables, slug: Slug, now: int, s: Slug)
    ensures StaticOf(StampStatic(t, slug, now), s) == StaticOf(t, s)
    ensures OverlayOf(StampStatic(t, slug, now), s) == OverlayOf(t, s)
  {
  }

  lemma ScheduleOfInstalled(t: Tables, slug: Slug, rows: StaticRows)
    requires StaticRowsOf(rows, slug)
    ensures StaticOf(WithSchedule(t, slug, rows), slug) == rows
    ensures OverlayOf(WithSchedule(t, slug, rows), slug) == NO_OVERLAY
    ensures WithSchedule(t, slug, rows).providers == t.providers
  {
    ClearedHasNone(t, slug);
    hide Cleared;
    var s := StaticOf(WithSchedule(t, slug, rows), slug);
    assert s.stops == rows.stops;
    assert s.serviceDates == rows.serviceDates;
    assert s.departures == rows.departures;
  }

  lemma OtherSchedules(t: Tables, slug: Slug, rows: StaticRows, other: Slug)
    requires StaticRowsOf(rows, slug) && other != slug
    ensures StaticOf(WithSchedule(t, slug, rows), other) == StaticOf(t, other)
    ensures OverlayOf(WithSchedule(t, slug, rows), other) == OverlayOf(t, other)
  {
    hide Cleared, StaticOf, OverlayOf, StaticRowsOf;
    ClearedMeaning(t, slug);
    AddedRowsKeepOthers(Cleared(t, slug), slug, rows, other);
  }

  lemma AddedRowsKeepOthers(c: Tables, slug: Slug, rows: StaticRows, other: Slug)
    requires StaticRowsOf(rows, slug) && other != slug
    ensures var w := c.(stops := c.stops + rows.stops, serviceDates := c.serviceDates + rows.serviceDates,
                        departures := c.departures + rows.departures);
      StaticOf(w, other) == StaticOf(c, other) && OverlayOf(w, other) == OverlayOf(c, other)
  {
    var w := c.(stops := c.stops + rows.stops, serviceDates := c.serviceDates + rows.serviceDates,
                departures := c.departures + rows.departures);
    assert StaticOf(w, other).stops == StaticOf(c, other).stops;
    assert StaticOf(w, other).serviceDates == StaticOf(c, other).serviceDates;
    assert StaticOf(w, other).departures == StaticOf(c, other).departures;
  }

  // ---------------------------------------------------------------- a realtime refresh

  function Refreshed(t: Tables, slug: Slug, rows: OverlayRows, now: int): Tables {
    StampRealtime(WithOverlay(t, slug, rows), slug, now)
  }

  lemma RefreshedMeaning(t: Tables, slug: Slug, rows: OverlayRows, now: int)
    requires OverlayRowsOf(rows, slug)
    ensures OverlayOf(Refreshed(t, slug, rows, now), slug) == rows
    ensures forall s :: StaticOf(Refreshed(t, slug, rows, now), s) == StaticOf(t, s)
    ensures OthersUntouched(t, Refreshed(t, slug, rows, now), slug)
    ensures Refreshed(t, slug, rows, now).providers.Keys == t.providers.Keys
    ensures slug in t.providers ==>
              Refreshed(t, slug, rows, now).providers[slug] == t.providers[slug].(realtimeUpdated := At(now))
  {
    WithOverlayMeaning(t, slug, rows);
    var w := WithOverlay(t, slug, rows);
    var after := Refreshed(t, slug, rows, now);
    forall s ensures StaticOf(after, s) == StaticOf(w, s) && OverlayOf(after, s) == OverlayOf(w, s) {
    }
  }

  // ---------------------------------------------------------------- _ensure_provider

  /** INSERT OR IGNORE INTO providers. */
  function Ensured(t: Tables, slug: Slug, city: string): Tables {
    if slug in t.providers then t else t.(providers := t.providers[slug := ProviderRow(city, Never, Never)])
  }

  // ---------------------------------------------------------------- committed transactions

  datatype Commit =
    | InstallCommit(slug: Slug, rows: StaticRows, now: int)
    | RefreshCommit(slug: Slug, feeds: seq<FeedMessage>, overlay: OverlayRows, now: int)
    | EnsureCommit(slug: Slug, city: string)

  function Apply(t: Tables, c: Commit): Tables {
    match c
    case InstallCommit(slug, rows, now) => Installed(t, slug, rows, now)
    case RefreshCommit(slug, _, overlay, now) => Refreshed(t, slug, overlay, now)
    case EnsureCommit(slug, city) => Ensured(t, slug, city)
  }

  /** The transactions one after another. */
  function Replay(init: Tables, log: seq<Commit>): Tables {
    if log == [] then init else Apply(Replay(init, log[..|log| - 1]), log[|log| - 1])
  }

  lemma ReplayNext(init: Tables, log: seq<Commit>, c: Commit)
    ensures Replay(init, log + [c]) == Apply(Replay(init, log), c)
  {
    assert (log + [c])[..|log|] == log;
  }

  /**
   * The commit's rows are its own provider's, the stops of a schedule have their provider's row, and an overlay
   * fits the schedule it is applied to.
   */
  ghost predicate Admissible(zone: Zone, t: Tables, c: Commit) {
    match c
    case InstallCommit(slug, rows, _) => StaticRowsOf(rows, slug) && AcceptsStops(t, slug, |rows.stops|)
    case RefreshCommit(slug, feeds, overlay, _) =>
      OverlayRowsOf(overlay, slug) && OverlayFrom(t, slug, zone, feeds, overlay)
    case EnsureCommit(_, _) => true
  }

  ghost predicate AdmissibleLog(zone: Zone, init: Tables, log: seq<Commit>) {
    forall i :: 0 <= i < |log| ==> Admissible(zone, Replay(init, log[..i]), log[i])
  }

  lemma AdmissibleNext(zone: Zone, init: Tables, log: seq<Commit>, c: Commit)
    requires AdmissibleLog(zone, init, log) && Admissible(zone, Replay(init, log), c)
    ensures AdmissibleLog(zone, init, log + [c])
  {
    hide Admissible, Replay;
    var after := log + [c];
    forall i | 0 <= i < |after| ensures Admissible(zone, Replay(init, after[..i]), after[i]) {
      if i < |log| { assert after[..i] == log[..i]; } else { assert after[..i] == log; }
    }
  }

  /** When a transaction stamped its provider. */
  function StampTime(c: Commit): Option<int> { if c.EnsureCommit? then None else Some(c.now) }

  /** The stamps of a log are in commit order, because they are taken under the lock. */
  ghost predicate InTimeOrder(log: seq<Commit>) {
    forall i, j :: 0 <= i < j < |log| && StampTime(log[i]).Some? && StampTime(log[j]).Some? ==>
      StampTime(log[i]).value <= StampTime(log[j]).value
  }

  /** A commit leaves every other provider alone. */
  lemma ApplyTouchesOneProvider(zone: Zone, t: Tables, c: Commit)
    requires Admissible(zone, t, c)
    ensures OthersUntouched(t, Apply(t, c), c.slug)
  {
    match c
    case InstallCommit(slug, rows, now) => InstalledMeaning(t, slug, rows, now);
    case RefreshCommit(slug, _, overlay, now) => RefreshedMeaning(t, slug, overlay, now);
    case EnsureCommit(_, _) =>
  }

  /** What feeds make of a schedule depends only on the provider's own schedule. */
  lemma OverlayDependsOnOwnSchedule(a: Tables, b: Tables, slug: Slug, zone: Zone, feeds: seq<FeedMessage>,
                                    rows: OverlayRows)
    requires StaticOf(a, slug) == StaticOf(b, slug)
    requires OverlayFrom(a, slug, zone, feeds, rows)
    ensures OverlayFrom(b, slug, zone, feeds, rows)
  {
    hide Gather, NearestDelays, StaticOf;
    var g := Gather(feeds);
    var nearest :| NearestDelays(a, slug, zone, g.estimated, nearest) &&
      rows == RowsOf(slug, nearest + g.delays, g.cancelled, g.skipped);
    DelaysDependOnOwnSchedule(a, b, slug, zone, g.estimated, nearest);
  }

  lemma DelaysDependOnOwnSchedule(a: Tables, b: Tables, slug: Slug, zone: Zone, estimated: map<Key, int>,
                                  delays: map<Key, int>)
    requires StaticOf(a, slug) == StaticOf(b, slug)
    requires NearestDelays(a, slug, zone, estimated, delays)
    ensures NearestDelays(b, slug, zone, estimated, delays)
  {
    hide InReach, IsScheduled, StaticOf, IsNearest;
    forall o ensures IsScheduled(a, slug, o) <==> IsScheduled(b, slug, o) {
      ScheduledByOwnRows(a, slug, o);
      ScheduledByOwnRows(b, slug, o);
    }
    assert Reach(a, slug, zone, estimated) == Reach(b, slug, zone, estimated);
  }

  lemma ScheduledByOwnRows(t: Tables, slug: Slug, o: Occurrence)
    ensures IsScheduled(t, slug, o) <==>
            var own := StaticOf(t, slug);
            var k := DepartureKey(slug, o.tripId, o.stopId, o.sequence);
            k in own.departures && own.departures[k].scheduledSeconds == o.scheduledSeconds &&
            ServiceDate(slug, own.departures[k].serviceId, o.day) in own.serviceDates
  {
  }

  // ---------------------------------------------------------------- histories of one provider

  /** The provider's last install or realtime refresh. */
  function LastCommit(log: seq<Commit>, slug: Slug): Option<Commit> {
    if log == [] then None
    else
      var c := log[|log| - 1];
      if c.slug == slug && !c.EnsureCommit? then Some(c) else LastCommit(log[..|log| - 1], slug)
  }

  function LastInstall(log: seq<Commit>, slug: Slug): Option<Commit> {
    if log == [] then None
    else
      var c := log[|log| - 1];
      if c.slug == slug && c.InstallCommit? then Some(c) else LastInstall(log[..|log| - 1], slug)
  }

  /**
   * In t a provider's realtime rows are those of its last refresh since its last install, derived from the
   * schedule that t holds; right after an install there are none.
   */
  ghost predicate OverlayFits(zone: Zone, init: Tables, log: seq<Commit>, slug: Slug, t: Tables) {
    match LastCommit(log, slug)
    case None => OverlayOf(t, slug) == OverlayOf(init, slug) && StaticOf(t, slug) == StaticOf(init, slug)
    case Some(InstallCommit(_, rows, _)) => OverlayOf(t, slug) == NO_OVERLAY && StaticOf(t, slug) == rows
    case Some(RefreshCommit(_, feeds, overlay, _)) =>
      OverlayOf(t, slug) == overlay && OverlayFrom(t, slug, zone, feeds, overlay)
    case Some(EnsureCommit(_, _)) => false
  }

  /** Overlay consistency of every admissible history. */
  lemma {:induction false} OverlayFitsInstalledSchedule(zone: Zone, init: Tables, log: seq<Commit>, slug: Slug)
    requires AdmissibleLog(zone, init, log)
    ensures OverlayFits(zone, init, log, slug, Replay(init, log))
  {
    hide Apply, Admissible, OverlayFrom, StaticOf, OverlayOf;
    if log != [] {
      var n := |log| - 1;
      var before, c := Replay(init, log[..n]), log[n];
      AdmissiblePrefix(zone, init, log, n);
      OverlayFitsInstalledSchedule(zone, init, log[..n], slug);
      ApplyForProvider(zone, before, c, slug);
      match LastCommit(log[..n], slug) {
        case Some(RefreshCommit(_, feeds, overlay, _)) =>
          if LastCommit(log, slug) == LastCommit(log[..n], slug) && !(c.slug == slug && !c.EnsureCommit?) {
            OverlayDependsOnOwnSchedule(before, Apply(before, c), slug, zone, feeds, overlay);
          }
        case _ =>
      }
    }
  }

  lemma AdmissiblePrefix(zone: Zone, init: Tables, log: seq<Commit>, n: nat)
    requires AdmissibleLog(zone, init, log) && n <= |log|
    ensures AdmissibleLog(zone, init, log[..n])
    ensures n < |log| ==> Admissible(zone, Replay(init, log[..n]), log[n])
  {
    hide Admissible, Replay;
    forall i | 0 <= i < n ensures Admissible(zone, Replay(init, log[..n][..i]), log[..n][i]) {
      assert log[..n][..i] == log[..i];
    }
  }

  lemma ApplyForProvider(zone: Zone, t: Tables, c: Commit, slug: Slug)
    requires Admissible(zone, t, c)
    ensures (c.slug != slug || c.EnsureCommit?) ==>
              OverlayOf(Apply(t, c), slug) == OverlayOf(t, slug) && StaticOf(Apply(t, c), slug) == StaticOf(t, slug)
    ensures c.slug == slug && c.InstallCommit? ==>
              OverlayOf(Apply(t, c), slug) == NO_OVERLAY && StaticOf(Apply(t, c), slug) == c.rows
    ensures c.slug == slug && c.RefreshCommit? ==>
              OverlayOf(Apply(t, c), slug) == c.overlay && StaticOf(Apply(t, c), slug) == StaticOf(t, slug) &&
              OverlayFrom(Apply(t, c), slug, zone, c.feeds, c.overlay)
  {
    hide OverlayFrom;
    ApplyTouchesOneProvider(zone, t, c);
    match c
    case InstallCommit(s, rows, now) => InstalledMeaning(t, s, rows, now);
    case RefreshCommit(s, feeds, overlay, now) =>
      RefreshedMeaning(t, s, overlay, now);
      OverlayDependsOnOwnSchedule(t, Apply(t, c), s, zone, feeds, overlay);
    case EnsureCommit(_, _) =>
  }

  /** A provider's schedule after a history: entirely its last install, or the one it started with. */
  function LastSchedule(init: Tables, log: seq<Commit>, slug: Slug): StaticRows {
    match LastInstall(log, slug)
    case Some(InstallCommit(_, rows, _)) => rows
    case _ => StaticOf(init, slug)
  }

  lemma {:induction false} ScheduleIsLastInstall(zone: Zone, init: Tables, log: seq<Commit>, slug: Slug)
    requires AdmissibleLog(zone, init, log)
    ensures StaticOf(Replay(init, log), slug) == LastSchedule(init, log, slug)
  {
    hide Apply, Admissible, StaticOf, OverlayOf;
    if log != [] {
      var n := |log| - 1;
      AdmissiblePrefix(zone, init, log, n);
      ScheduleIsLastInstall(zone, init, log[..n], slug);
      ApplyForProvider(zone, Replay(init, log[..n]), log[n], slug);
    }
  }

  // ---------------------------------------------------------------- installs of distinct providers

  ghost predicate DistinctInstalls(log: seq<Commit>) {
    (forall i :: 0 <= i < |log| ==> log[i].InstallCommit? && StaticRowsOf(log[i].rows, log[i].slug)) &&
    forall i, j :: 0 <= i < j < |log| ==> log[i].slug != log[j].slug
  }

  /** After installs of distinct providers each one has its feed, and the others have what they had. */
  lemma {:induction false} InstallsMeaning(init: Tables, log: seq<Commit>, slug: Slug)
    requires DistinctInstalls(log)
    ensures forall c :: c in log && c.slug == slug ==>
              StaticOf(Replay(init, log), slug) == c.rows && OverlayOf(Replay(init, log), slug) == NO_OVERLAY
    ensures (forall c :: c in log ==> c.slug != slug) ==>
              StaticOf(Replay(init, log), slug) == StaticOf(init, slug) &&
              OverlayOf(Replay(init, log), slug) == OverlayOf(init, slug)
    ensures Replay(init, log).providers.Keys == init.providers.Keys
    ensures slug in init.providers ==>
              (forall c :: c in log && c.slug == slug ==>
                Replay(init, log).providers[slug] == init.providers[slug].(staticUpdated := At(c.now))) &&
              ((forall c :: c in log ==> c.slug != slug) ==>
                Replay(init, log).providers[slug] == init.providers[slug])
  {
    hide Installed, StaticOf, OverlayOf;
    if log != [] {
      var n := |log| - 1;
      var init', last := log[..n], log[n];
      assert DistinctInstalls(init');
      InstallsMeaning(init, init', slug);
      InstalledMeaning(Replay(init, init'), last.slug, last.rows, last.now);
      assert log == init' + [last];
      forall c | c in init' ensures c.slug != last.slug {
        var i :| 0 <= i < n && init'[i] == c;
        assert log[i] == c;
      }
    }
  }
}
