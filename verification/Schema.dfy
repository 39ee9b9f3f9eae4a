/**
 * The SQLite tables of app/core/database.py, each a map or set keyed by its PRIMARY KEY, and one
 * writer's view of them.
 */
module Schema {
  import opened Prelude
  import opened Calendar

  type Slug = string

  datatype StopKey = StopKey(slug: Slug, stopId: string)
  datatype StopRow = StopRow(name: string, code: Option<string>, latitude: Option<string>, longitude: Option<string>)

  /** A stored ISO date stands for the day it denotes (Calendar.FromIsoOfIso, Calendar.IsoOrder). */
  datatype ServiceDate = ServiceDate(slug: Slug, serviceId: string, day: Day)

  datatype DepartureKey = DepartureKey(slug: Slug, tripId: string, stopId: string, sequence: int)
  datatype DepartureRow = DepartureRow(
    serviceId: string, scheduledSeconds: int, routeName: string, destination: Option<string>)

  /** The key of realtime_delays and realtime_skipped_stops. */
  datatype UpdateKey = UpdateKey(slug: Slug, tripId: string, sequence: int)
  datatype TripKey = TripKey(slug: Slug, tripId: string)

  /** A nullable timestamp column; the program also survives a text it cannot read. */
  datatype Stamp = Never | Unreadable | At(instant: int)
  datatype ProviderRow = ProviderRow(city: string, staticUpdated: Stamp, realtimeUpdated: Stamp)

  datatype Tables = Tables(
    providers: map<Slug, ProviderRow>,
    stops: map<StopKey, StopRow>,
    serviceDates: set<ServiceDate>,
    departures: map<DepartureKey, DepartureRow>,
    delays: map<UpdateKey, int>,
    cancellations: set<TripKey>,
    skips: set<UpdateKey>)

  const EMPTY_TABLES := Tables(map[], map[], {}, map[], map[], {}, {})

  // ---------------------------------------------------------------- the rows of one provider

  datatype StaticRows = StaticRows(
    stops: map<StopKey, StopRow>, serviceDates: set<ServiceDate>, departures: map<DepartureKey, DepartureRow>)

  datatype OverlayRows = OverlayRows(
    delays: map<UpdateKey, int>, cancellations: set<TripKey>, skips: set<UpdateKey>)

  const NO_OVERLAY := OverlayRows(map[], {}, {})

  function StaticOf(t: Tables, slug: Slug): StaticRows {
    StaticRows(
      map k | k in t.stops && k.slug == slug :: t.stops[k],
      set d | d in t.serviceDates && d.slug == slug,
      map k | k in t.departures && k.slug == slug :: t.departures[k])
  }

  function OverlayOf(t: Tables, slug: Slug): OverlayRows {
    OverlayRows(
      map k | k in t.delays && k.slug == slug :: t.delays[k],
      set k | k in t.cancellations && k.slug == slug,
      set k | k in t.skips && k.slug == slug)
  }

  ghost predicate StaticRowsOf(s: StaticRows, slug: Slug) {
    (forall k :: k in s.stops ==> k.slug == slug) &&
    (forall d :: d in s.serviceDates ==> d.slug == slug) &&
    (forall k :: k in s.departures ==> k.slug == slug)
  }

  ghost predicate OverlayRowsOf(o: OverlayRows, slug: Slug) {
    (forall k :: k in o.delays ==> k.slug == slug) &&
    (forall k :: k in o.cancellations ==> k.slug == slug) &&
    (forall k :: k in o.skips ==> k.slug == slug)
  }

  /** Nothing but the rows of slug differs. */
  ghost predicate OthersUntouched(before: Tables, after: Tables, slug: Slug) {
    forall other :: other != slug ==>
      StaticOf(after, other) == StaticOf(before, other) &&
      OverlayOf(after, other) == OverlayOf(before, other) &&
      (other in after.providers <==> other in before.providers) &&
      (other in before.providers ==> after.providers[other] == before.providers[other])
  }

  // ---------------------------------------------------------------- statements

  /** foreign_keys is on: a stop row is refused unless its provider has a row. Provider rows are never deleted. */
  predicate AcceptsStops(t: Tables, slug: Slug, count: nat) { count == 0 || slug in t.providers }

  /** INSERT INTO table SELECT ...: a plain insert, which fails on a key already there. */
  function CopyRows<K, V>(table: map<K, V>, rows: map<K, V>): Result<map<K, V>> {
    if table.Keys !! rows.Keys then Success(table + rows) else Failure
  }

  datatype TableName = StopTable | DateTable | DepartureTable | DelayTable | CancellationTable | SkipTable

  /** DELETE FROM table WHERE provider_slug = slug. */
  function Delete(t: Tables, table: TableName, slug: Slug): Tables {
    match table
    case StopTable => t.(stops := map k | k in t.stops && k.slug != slug :: t.stops[k])
    case DateTable => t.(serviceDates := set d | d in t.serviceDates && d.slug != slug)
    case DepartureTable => t.(departures := map k | k in t.departures && k.slug != slug :: t.departures[k])
    case DelayTable => t.(delays := map k | k in t.delays && k.slug != slug :: t.delays[k])
    case CancellationTable => t.(cancellations := set k | k in t.cancellations && k.slug != slug)
    case SkipTable => t.(skips := set k | k in t.skips && k.slug != slug)
  }

  const PROVIDER_TABLES: seq<TableName> :=
    [StopTable, DateTable, DepartureTable, DelayTable, CancellationTable, SkipTable]

  function DeleteAll(t: Tables, tables: seq<TableName>, slug: Slug): Tables {
    if tables == [] then t
    else Delete(DeleteAll(t, tables[..|tables| - 1], slug), tables[|tables| - 1], slug)
  }

  /** Without the provider's schedule and overlay. */
  function Cleared(t: Tables, slug: Slug): Tables {
    Delete(Delete(Delete(Delete(Delete(Delete(t, StopTable, slug), DateTable, slug), DepartureTable, slug),
                         DelayTable, slug), CancellationTable, slug), SkipTable, slug)
  }

  lemma DeleteNext(t: Tables, k: nat, slug: Slug)
    requires k < |PROVIDER_TABLES|
    ensures DeleteAll(t, PROVIDER_TABLES[..k + 1], slug) ==
            Delete(DeleteAll(t, PROVIDER_TABLES[..k], slug), PROVIDER_TABLES[k], slug)
  {
    assert PROVIDER_TABLES[..k + 1][..k] == PROVIDER_TABLES[..k];
  }

  lemma DeleteAllClears(t: Tables, slug: Slug)
    ensures DeleteAll(t, PROVIDER_TABLES, slug) == Cleared(t, slug)
  {
    assert PROVIDER_TABLES[..6] == PROVIDER_TABLES;
    DeleteNext(t, 0, slug);
    DeleteNext(t, 1, slug);
    DeleteNext(t, 2, slug);
    DeleteNext(t, 3, slug);
    DeleteNext(t, 4, slug);
    DeleteNext(t, 5, slug);
  }

  lemma DeleteKeepsOthers(t: Tables, table: TableName, slug: Slug, other: Slug)
    requires other != slug
    ensures StaticOf(Delete(t, table, slug), other) == StaticOf(t, other)
    ensures OverlayOf(Delete(t, table, slug), other) == OverlayOf(t, other)
    ensures Delete(t, table, slug).providers == t.providers
  {
  }

  lemma {:induction false} DeleteAllKeepsOthers(t: Tables, tables: seq<TableName>, slug: Slug, other: Slug)
    requires other != slug
    ensures StaticOf(DeleteAll(t, tables, slug), other) == StaticOf(t, other)
    ensures OverlayOf(DeleteAll(t, tables, slug), other) == OverlayOf(t, other)
    ensures DeleteAll(t, tables, slug).providers == t.providers
  {
    hide Delete, StaticOf, OverlayOf;
    if tables != [] {
      var n := |tables| - 1;
      DeleteAllKeepsOthers(t, tables[..n], slug, other);
      DeleteKeepsOthers(DeleteAll(t, tables[..n], slug), tables[n], slug, other);
    }
  }

  /** No row of the provider is left. */
  lemma ClearedHasNone(t: Tables, slug: Slug)
    ensures forall k :: k in Cleared(t, slug).stops ==> k.slug != slug
    ensures forall d :: d in Cleared(t, slug).serviceDates ==> d.slug != slug
    ensures forall k :: k in Cleared(t, slug).departures ==> k.slug != slug
    ensures StaticOf(Cleared(t, slug), slug) == StaticRows(map[], {}, map[])
    ensures OverlayOf(Cleared(t, slug), slug) == NO_OVERLAY
    ensures Cleared(t, slug).providers == t.providers
  {
  }

  lemma ClearedMeaning(t: Tables, slug: Slug)
    ensures StaticOf(Cleared(t, slug), slug) == StaticRows(map[], {}, map[])
    ensures OverlayOf(Cleared(t, slug), slug) == NO_OVERLAY
    ensures OthersUntouched(t, Cleared(t, slug), slug)
    ensures Cleared(t, slug).providers == t.providers
  {
    hide Cleared, DeleteAll, StaticOf, OverlayOf;
    ClearedHasNone(t, slug);
    DeleteAllClears(t, slug);
    forall other | other != slug
      ensures StaticOf(Cleared(t, slug), other) == StaticOf(t, other) &&
              OverlayOf(Cleared(t, slug), other) == OverlayOf(t, other)
    {
      DeleteAllKeepsOthers(t, PROVIDER_TABLES, slug, other);
    }
  }

  /** What sqlite3 can bind as INTEGER: 64 bits, signed. */
  predicate FitsInteger(n: int) { -0x8000_0000_0000_0000 <= n < 0x8000_0000_0000_0000 }

  /**
   * A writer's open transaction: the tables as this connection sees them, and the temporary table
   * gtfs_import_trips.
   */
  class Connection {
    var tables: Tables
    var stagedTrips: map<string, StagedTrip>

    constructor (tables: Tables)
      ensures this.tables == tables && stagedTrips == map[]
    {
      this.tables := tables;
      this.stagedTrips := map[];
    }

    /** One DELETE per table, in the order of the program. */
    method DeleteProvider(slug: Slug)
      modifies this`tables
      ensures tables == Cleared(old(tables), slug)
    {
      var k := 0;
      while k < |PROVIDER_TABLES|
        invariant 0 <= k <= |PROVIDER_TABLES|
        invariant tables == DeleteAll(old(tables), PROVIDER_TABLES[..k], slug)
      {
        DeleteNext(old(tables), k, slug);
        tables := Delete(tables, PROVIDER_TABLES[k], slug);
        k := k + 1;
      }
      assert PROVIDER_TABLES[..k] == PROVIDER_TABLES;
      DeleteAllClears(old(tables), slug);
    }
  }

  datatype StagedTrip = StagedTrip(serviceId: string, routeName: string, destination: Option<string>)
}
