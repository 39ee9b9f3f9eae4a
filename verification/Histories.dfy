/**
 * Confluence of the write transactions: what the tables hold of a provider depends only on that provider's own
 * transactions in their order, however they are interleaved with those of other providers.
 */
module Histories {
  import opened Prelude
  import opened Schema
  import opened Realtime
  import opened Commits

  // ---------------------------------------------------------------- one provider

  function Provider(t: Tables, slug: Slug): Option<ProviderRow> {
    if slug in t.providers then Some(t.providers[slug]) else None
  }

  /** Everything that the tables hold of one provider. */
  datatype Holding = Holding(row: Option<ProviderRow>, schedule: StaticRows, overlay: OverlayRows)

  function HoldingOf(t: Tables, slug: Slug): Holding {
    Holding(Provider(t, slug), StaticOf(t, slug), OverlayOf(t, slug))
  }

  function ProviderAfter(p: Option<ProviderRow>, c: Commit): Option<ProviderRow> {
    match c
    case InstallCommit(_, _, now) => if p.Some? then Some(p.value.(staticUpdated := At(now))) else None
    case RefreshCommit(_, _, _, now) => if p.Some? then Some(p.value.(realtimeUpdated := At(now))) else None
    case EnsureCommit(_, city) => if p.Some? then p else Some(ProviderRow(city, Never, Never))
  }

  /** What a transaction of the provider makes of it. */
  function Advance(h: Holding, c: Commit): Holding {
    match c
    case InstallCommit(_, rows, _) => Holding(ProviderAfter(h.row, c), rows, NO_OVERLAY)
    case RefreshCommit(_, _, overlay, _) => Holding(ProviderAfter(h.row, c), h.schedule, overlay)
    case EnsureCommit(_, _) => h.(row := ProviderAfter(h.row, c))
  }

  function Run(h: Holding, own: seq<Commit>): Holding {
    if own == [] then h else Advance(Run(h, own[..|own| - 1]), own[|own| - 1])
  }

  /** The provider's own transactions. */
  function Own(log: seq<Commit>, slug: Slug): seq<Commit> {
    if log == [] then []
    else
      var before, c := Own(log[..|log| - 1], slug), log[|log| - 1];
      if c.slug == slug then before + [c] else before
  }

  /** Tables with this schedule and nothing else. */
  function Only(schedule: StaticRows): Tables {
    EMPTY_TABLES.(stops := schedule.stops, serviceDates := schedule.serviceDates, departures := schedule.departures)
  }

  /** Admissible, told of what the provider holds. */
  ghost predicate OwnAdmissible(zone: Zone, h: Holding, c: Commit) {
    match c
    case InstallCommit(slug, rows, _) => StaticRowsOf(rows, slug) && (|rows.stops| == 0 || h.row.Some?)
    case RefreshCommit(slug, feeds, overlay, _) =>
      OverlayRowsOf(overlay, slug) && OverlayFrom(Only(h.schedule), slug, zone, feeds, overlay)
    case EnsureCommit(_, _) => true
  }

  ghost predicate Sound(zone: Zone, h: Holding, own: seq<Commit>) {
    own == [] ||
    (Sound(zone, h, own[..|own| - 1]) && OwnAdmissible(zone, Run(h, own[..|own| - 1]), own[|own| - 1]))
  }

  lemma OnlyOwnRows(t: Tables, slug: Slug)
    ensures StaticOf(Only(StaticOf(t, slug)), slug) == StaticOf(t, slug)
  {
    var s := StaticOf(t, slug);
    assert StaticOf(Only(s), slug).stops == s.stops;
    assert StaticOf(Only(s), slug).serviceDates == s.serviceDates;
    assert StaticOf(Only(s), slug).departures == s.departures;
  }

  /** Whether a transaction is admissible depends on its own provider only. */
  lemma AdmissibleIsOwn(zone: Zone, t: Tables, c: Commit)
    ensures Admissible(zone, t, c) <==> OwnAdmissible(zone, HoldingOf(t, c.slug), c)
  {
    hide OverlayFrom, StaticOf, OverlayOf, Only, StaticRowsOf, OverlayRowsOf;
    if c.RefreshCommit? {
      var only := Only(StaticOf(t, c.slug));
      OnlyOwnRows(t, c.slug);
      if OverlayFrom(t, c.slug, zone, c.feeds, c.overlay) {
        OverlayDependsOnOwnSchedule(t, only, c.slug, zone, c.feeds, c.overlay);
      }
      if OverlayFrom(only, c.slug, zone, c.feeds, c.overlay) {
        OverlayDependsOnOwnSchedule(only, t, c.slug, zone, c.feeds, c.overlay);
      }
    }
  }

  lemma ProviderOfApply(t: Tables, c: Commit, slug: Slug)
    ensures Provider(Apply(t, c), slug) ==
            if slug == c.slug then ProviderAfter(Provider(t, slug), c) else Provider(t, slug)
  {
    match c
    case InstallCommit(s, rows, now) => assert WithSchedule(t, s, rows).providers == t.providers;
    case RefreshCommit(s, _, overlay, now) => assert WithOverlay(t, s, overlay).providers == t.providers;
    case EnsureCommit(_, _) =>
  }

  lemma HoldingOfApply(zone: Zone, t: Tables, c: Commit, slug: Slug)
    requires Admissible(zone, t, c)
    ensures HoldingOf(Apply(t, c), slug) ==
            if c.slug == slug then Advance(HoldingOf(t, slug), c) else HoldingOf(t, slug)
  {
    hide Apply, Admissible, StaticOf, OverlayOf, Provider, ProviderAfter, OverlayFrom;
    ApplyForProvider(zone, t, c, slug);
    ProviderOfApply(t, c, slug);
  }

  // ---------------------------------------------------------------- many providers

  /**
   * A log is admissible exactly when every provider's own transactions are, and then each provider holds what its
   * own transactions alone make of what it held.
   */
  lemma {:induction false} HistoriesDecide(zone: Zone, init: Tables, log: seq<Commit>)
    ensures AdmissibleLog(zone, init, log) <==> forall slug :: Sound(zone, HoldingOf(init, slug), Own(log, slug))
    ensures AdmissibleLog(zone, init, log) ==>
              forall slug :: HoldingOf(Replay(init, log), slug) == Run(HoldingOf(init, slug), Own(log, slug))
  {
    hide Apply, Admissible, HoldingOf, AdmissibleLog, OwnAdmissible, Advance;
    if log == [] {
      EmptyLogAdmissible(zone, init);
    } else {
      var n := |log| - 1;
      var prev, c := log[..n], log[n];
      var before := Replay(init, prev);
      HistoriesDecide(zone, init, prev);
      AdmissibleIsOwn(zone, before, c);
      assert prev + [c] == log;
      OwnNext(prev, c);
      if AdmissibleLog(zone, init, log) {
        AdmissiblePrefix(zone, init, log, n);
        forall slug ensures Sound(zone, HoldingOf(init, slug), Own(log, slug)) &&
            HoldingOf(Replay(init, log), slug) == Run(HoldingOf(init, slug), Own(log, slug)) {
          HoldingOfApply(zone, before, c, slug);
          if c.slug == slug { OwnStep(zone, HoldingOf(init, slug), Own(prev, slug), c); }
        }
      }
      if forall slug :: Sound(zone, HoldingOf(init, slug), Own(log, slug)) {
        forall slug ensures Sound(zone, HoldingOf(init, slug), Own(prev, slug)) {
          assert Sound(zone, HoldingOf(init, slug), Own(log, slug));
          if c.slug == slug { OwnStep(zone, HoldingOf(init, slug), Own(prev, slug), c); }
        }
        OwnStep(zone, HoldingOf(init, c.slug), Own(prev, c.slug), c);
        assert Sound(zone, HoldingOf(init, c.slug), Own(log, c.slug));
        AdmissibleNext(zone, init, prev, c);
      }
    }
  }

  lemma EmptyLogAdmissible(zone: Zone, init: Tables)
    ensures AdmissibleLog(zone, init, [])
  {
  }

  lemma OwnNext(prev: seq<Commit>, c: Commit)
    ensures forall slug :: Own(prev + [c], slug) == if c.slug == slug then Own(prev, slug) + [c] else Own(prev, slug)
  {
    assert (prev + [c])[..|prev|] == prev;
  }

  lemma OwnStep(zone: Zone, h: Holding, own: seq<Commit>, c: Commit)
    ensures Sound(zone, h, own + [c]) <==> Sound(zone, h, own) && OwnAdmissible(zone, Run(h, own), c)
    ensures Run(h, own + [c]) == Advance(Run(h, own), c)
  {
    assert (own + [c])[..|own|] == own;
  }

  /** Tables are determined by each provider's rows. */
  lemma TablesByProvider(a: Tables, b: Tables)
    requires forall slug :: StaticOf(a, slug) == StaticOf(b, slug) && OverlayOf(a, slug) == OverlayOf(b, slug)
    requires a.providers == b.providers
    ensures a == b
  {
    forall k ensures k in a.stops <==> k in b.stops {
      assert k in StaticOf(a, k.slug).stops <==> k in a.stops;
      assert k in StaticOf(b, k.slug).stops <==> k in b.stops;
    }
    forall k | k in a.stops ensures a.stops[k] == b.stops[k] {
      assert StaticOf(a, k.slug).stops[k] == StaticOf(b, k.slug).stops[k];
    }
    forall d ensures d in a.serviceDates <==> d in b.serviceDates {
      assert d in StaticOf(a, d.slug).serviceDates <==> d in a.serviceDates;
      assert d in StaticOf(b, d.slug).serviceDates <==> d in b.serviceDates;
    }
    forall k ensures k in a.departures <==> k in b.departures {
      assert k in StaticOf(a, k.slug).departures <==> k in a.departures;
      assert k in StaticOf(b, k.slug).departures <==> k in b.departures;
    }
    forall k | k in a.departures ensures a.departures[k] == b.departures[k] {
      assert StaticOf(a, k.slug).departures[k] == StaticOf(b, k.slug).departures[k];
    }
    OverlayTablesByProvider(a, b);
  }

  lemma OverlayTablesByProvider(a: Tables, b: Tables)
    requires forall slug :: OverlayOf(a, slug) == OverlayOf(b, slug)
    ensures a.delays == b.delays && a.cancellations == b.cancellations && a.skips == b.skips
  {
    forall k ensures k in a.delays <==> k in b.delays {
      assert k in OverlayOf(a, k.slug).delays <==> k in a.delays;
      assert k in OverlayOf(b, k.slug).delays <==> k in b.delays;
    }
    forall k | k in a.delays ensures a.delays[k] == b.delays[k] {
      assert OverlayOf(a, k.slug).delays[k] == OverlayOf(b, k.slug).delays[k];
    }
    forall k ensures k in a.cancellations <==> k in b.cancellations {
      assert k in OverlayOf(a, k.slug).cancellations <==> k in a.cancellations;
      assert k in OverlayOf(b, k.slug).cancellations <==> k in b.cancellations;
    }
    forall k ensures k in a.skips <==> k in b.skips {
      assert k in OverlayOf(a, k.slug).skips <==> k in a.skips;
      assert k in OverlayOf(b, k.slug).skips <==> k in b.skips;
    }
  }

  /**
   * Two logs in which every provider has the same transactions in the same order, whatever lies between them,
   * leave the same tables; and if one is admissible, so is the other.
   */
  lemma SameHistoriesSameTables(zone: Zone, init: Tables, a: seq<Commit>, b: seq<Commit>)
    requires AdmissibleLog(zone, init, a) && forall slug :: Own(a, slug) == Own(b, slug)
    ensures AdmissibleLog(zone, init, b) && Replay(init, a) == Replay(init, b)
  {
    hide AdmissibleLog, Replay, Sound, Run, StaticOf, OverlayOf;
    HistoriesDecide(zone, init, a);
    HistoriesDecide(zone, init, b);
    forall slug ensures Sound(zone, HoldingOf(init, slug), Own(b, slug)) {
      assert Own(a, slug) == Own(b, slug);
    }
    SameHoldingsSameTables(Replay(init, a), Replay(init, b));
  }

  lemma SameHoldingsSameTables(a: Tables, b: Tables)
    requires forall slug :: HoldingOf(a, slug) == HoldingOf(b, slug)
    ensures a == b
  {
    hide StaticOf, OverlayOf;
    forall slug
      ensures StaticOf(a, slug) == StaticOf(b, slug) && OverlayOf(a, slug) == OverlayOf(b, slug) &&
              Provider(a, slug) == Provider(b, slug)
    {
      assert HoldingOf(a, slug) == HoldingOf(b, slug);
    }
    forall slug ensures slug in a.providers <==> slug in b.providers {
      assert Provider(a, slug) == Provider(b, slug);
    }
    forall slug | slug in a.providers ensures a.providers[slug] == b.providers[slug] {
      assert Provider(a, slug) == Provider(b, slug);
    }
    assert a.providers == b.providers;
    TablesByProvider(a, b);
  }

  // ---------------------------------------------------------------- up to the timestamps

  /** The transaction without the time at which it happened to run. */
  function Timeless(c: Commit): Commit {
    match c
    case InstallCommit(slug, rows, _) => InstallCommit(slug, rows, 0)
    case RefreshCommit(slug, feeds, overlay, _) => RefreshCommit(slug, feeds, overlay, 0)
    case EnsureCommit(_, _) => c
  }

  /** The same transactions in the same order, at whatever times. */
  ghost predicate SameHistory(a: seq<Commit>, b: seq<Commit>) {
    |a| == |b| && forall i :: 0 <= i < |a| ==> Timeless(a[i]) == Timeless(b[i])
  }

  predicate HasInstall(own: seq<Commit>) { exists c :: c in own && c.InstallCommit? }

  predicate HasRefresh(own: seq<Commit>) { exists c :: c in own && c.RefreshCommit? }

  /** The same schedule, overlay and city, and the same timestamps as far as the transactions have not set them. */
  ghost predicate AgreeUpToStamps(x: Holding, y: Holding, own: seq<Commit>) {
    x.schedule == y.schedule && x.overlay == y.overlay && (x.row.Some? <==> y.row.Some?) &&
    (x.row.Some? ==>
      x.row.value.city == y.row.value.city &&
      (HasInstall(own) || x.row.value.staticUpdated == y.row.value.staticUpdated) &&
      (HasRefresh(own) || x.row.value.realtimeUpdated == y.row.value.realtimeUpdated))
  }

  lemma HasNext(own: seq<Commit>, c: Commit)
    ensures HasInstall(own + [c]) <==> HasInstall(own) || c.InstallCommit?
    ensures HasRefresh(own + [c]) <==> HasRefresh(own) || c.RefreshCommit?
  {
    assert forall d :: d in own + [c] <==> d in own || d == c;
  }

  lemma {:induction false} SameHistoryAgrees(zone: Zone, h: Holding, a: seq<Commit>, b: seq<Commit>)
    requires SameHistory(a, b)
    ensures AgreeUpToStamps(Run(h, a), Run(h, b), a)
    ensures Sound(zone, h, a) <==> Sound(zone, h, b)
  {
    hide HasInstall, HasRefresh, OverlayFrom, Only, OverlayRowsOf, StaticRowsOf;
    if a != [] {
      var n := |a| - 1;
      assert Timeless(a[n]) == Timeless(b[n]);
      SameHistoryAgrees(zone, h, a[..n], b[..n]);
      HasNext(a[..n], a[n]);
      assert a == a[..n] + [a[n]];
    }
  }

  /**
   * Confluence: two logs in which every provider has the same transactions in the same order, at whatever times
   * and whatever lies between them, leave the same schedules, overlays and providers; only timestamps that the
   * transactions have set can differ. And if one log is admissible, so is the other.
   */
  lemma SameHistoriesAgree(zone: Zone, init: Tables, a: seq<Commit>, b: seq<Commit>)
    requires AdmissibleLog(zone, init, a) && forall slug :: SameHistory(Own(a, slug), Own(b, slug))
    ensures AdmissibleLog(zone, init, b)
    ensures forall slug ::
            AgreeUpToStamps(HoldingOf(Replay(init, a), slug), HoldingOf(Replay(init, b), slug), Own(a, slug))
  {
    hide AdmissibleLog, Replay, Sound, Run, HoldingOf, AgreeUpToStamps, SameHistory, Own;
    HistoriesDecide(zone, init, a);
    HistoriesDecide(zone, init, b);
    forall slug
      ensures Sound(zone, HoldingOf(init, slug), Own(b, slug))
      ensures AgreeUpToStamps(Run(HoldingOf(init, slug), Own(a, slug)), Run(HoldingOf(init, slug), Own(b, slug)),
                              Own(a, slug))
    {
      assert SameHistory(Own(a, slug), Own(b, slug));
      SameHistoryAgrees(zone, HoldingOf(init, slug), Own(a, slug), Own(b, slug));
    }
    forall slug
      ensures AgreeUpToStamps(HoldingOf(Replay(init, a), slug), HoldingOf(Replay(init, b), slug), Own(a, slug))
    {
      assert HoldingOf(Replay(init, a), slug) == Run(HoldingOf(init, slug), Own(a, slug));
      assert HoldingOf(Replay(init, b), slug) == Run(HoldingOf(init, slug), Own(b, slug));
    }
  }

  // ---------------------------------------------------------------- installs in any order

  /** The log installs this schedule for this provider, at some time. */
  ghost predicate InstallsRows(log: seq<Commit>, slug: Slug, rows: StaticRows) {
    exists c :: c in log && c.InstallCommit? && c.slug == slug && c.rows == rows
  }

  lemma {:induction false} OwnOfDistinctInstalls(log: seq<Commit>, slug: Slug)
    requires DistinctInstalls(log)
    ensures forall c :: c in log && c.slug == slug ==> Own(log, slug) == [c]
    ensures (forall c :: c in log ==> c.slug != slug) ==> Own(log, slug) == []
  {
    if log != [] {
      var n := |log| - 1;
      OwnOfDistinctInstalls(log[..n], slug);
      assert log == log[..n] + [log[n]];
      if log[n].slug == slug {
        forall c | c in log[..n] ensures c.slug != slug {
          var i :| 0 <= i < n && log[..n][i] == c;
          assert log[i] == c;
        }
      }
    }
  }

  /** Two orders of the same installs of distinct providers are the same history for every provider. */
  lemma InstallOrderIsFree(a: seq<Commit>, b: seq<Commit>, slug: Slug)
    requires DistinctInstalls(a) && DistinctInstalls(b)
    requires forall s, rows :: InstallsRows(a, s, rows) <==> InstallsRows(b, s, rows)
    ensures SameHistory(Own(a, slug), Own(b, slug))
  {
    hide DistinctInstalls;
    OwnOfDistinctInstalls(a, slug);
    OwnOfDistinctInstalls(b, slug);
    if c :| c in a && c.slug == slug {
      var d := SameInstall(a, b, c);
    } else {
      forall d | d in b ensures d.slug != slug {
        if d.slug == slug { var c := SameInstall(b, a, d); }
      }
    }
  }

  lemma SameInstall(a: seq<Commit>, b: seq<Commit>, c: Commit) returns (d: Commit)
    requires DistinctInstalls(a) && c in a
    requires forall s, rows :: InstallsRows(a, s, rows) <==> InstallsRows(b, s, rows)
    ensures d in b && Timeless(d) == Timeless(c) && d.slug == c.slug
  {
    assert InstallsRows(a, c.slug, c.rows);
    d :| d in b && d.InstallCommit? && d.slug == c.slug && d.rows == c.rows;
  }
}
