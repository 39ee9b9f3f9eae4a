/**
 * What the importer makes of an archive, told on the cells of its files: which rows count, which of them wins, and
 * what is stored. Nothing here uses the row readers of StaticFeed except to prove that they do just this.
 */
module FeedMeaning {
  import opened Prelude
  import opened Calendar
  import opened Text
  import opened Schema
  import opened StopName
  import opened StaticFeed
  import opened StaticImport

  // ---------------------------------------------------------------- cells

  /** Stripping the cell of the column gives the text; a row without the column reads as blank. */
  predicate Reads(row: Row, column: string, text: string) {
    if column in row then row[column].Some? && Strip(row[column].value) == text else text == ""
  }

  /** Stripping the cell of the column raises, because the row is too short to have it. */
  predicate Breaks(row: Row, column: string) { column in row && row[column].None? }

  /** The cell of the column, unstripped; a row without the column, or too short for it, has none. */
  predicate Holds(row: Row, column: string, value: Option<string>) {
    value == if column in row then row[column] else None
  }

  /** An optional text: what is left of the cell after stripping, if anything is. */
  predicate HoldsText(row: Row, column: string, text: Option<string>) {
    match text
    case Some(v) => v != "" && Reads(row, column, v)
    case None => Breaks(row, column) || Reads(row, column, "")
  }

  // ---------------------------------------------------------------- the last row of each key

  /** Row i is the last that f reads as something with key k, and it reads as v. */
  ghost predicate IsLast<A(!new), K(!new), V(!new)>(f: A -> Result<Option<(K, V)>>, rows: seq<A>, i: nat, k: K, v: V) {
    i < |rows| && f(rows[i]) == Success(Some((k, v))) &&
    forall j :: i < j < |rows| ==> !GivesKey(f(rows[j]), k)
  }

  predicate GivesKey<K(==), V>(read: Result<Option<(K, V)>>, k: K) {
    read.Success? && read.value.Some? && read.value.value.0 == k
  }

  /** A row that does not give the key changes nothing about its last row. */
  lemma LastWithoutKey<A(!new), K(!new), V(!new)>(f: A -> Result<Option<(K, V)>>, rows: seq<A>, i: nat, k: K, v: V)
    requires rows != [] && !GivesKey(f(rows[|rows| - 1]), k)
    ensures IsLast(f, rows, i, k, v) <==> IsLast(f, rows[..|rows| - 1], i, k, v)
  {
    hide GivesKey;
    var init := rows[..|rows| - 1];
    assert forall j :: 0 <= j < |init| ==> init[j] == rows[j];
    if IsLast(f, rows, i, k, v) && i == |rows| - 1 { IsLastGivesKey(f, rows, i, k, v); }
  }

  lemma IsLastGivesKey<A(!new), K(!new), V(!new)>(f: A -> Result<Option<(K, V)>>, rows: seq<A>, i: nat, k: K, v: V)
    requires IsLast(f, rows, i, k, v)
    ensures GivesKey(f(rows[i]), k)
  {
  }

  lemma {:induction false} LastOfCollected<A(!new), K(!new), V(!new)>(f: A -> Result<Option<(K, V)>>, rows: seq<A>,
                                                                      k: K, v: V)
    requires Collect(f, rows).Success?
    ensures LastValue(Collect(f, rows).value, k) == Some(v) <==> exists i: nat :: IsLast(f, rows, i, k, v)
  {
    hide LastValue;
    if rows == [] {
      NothingCollected(Collect(f, rows).value, k);
    } else {
      var n := |rows| - 1;
      var init := rows[..n];
      var items, last := Collect(f, init).value, f(rows[n]).value;
      LastOfCollected(f, init, k, v);
      if last.Some? { LastValueOfLonger(items, last.value, k); }
      if GivesKey(f(rows[n]), k) {
        if i: nat :| IsLast(f, rows, i, k, v) { assert i == n; }
        if last.value.1 == v { assert IsLast(f, rows, n, k, v); }
      } else {
        hide IsLast;
        forall i: nat ensures IsLast(f, rows, i, k, v) <==> IsLast(f, init, i, k, v) {
          LastWithoutKey(f, rows, i, k, v);
        }
      }
    }
  }

  lemma NothingCollected<K, V>(items: seq<(K, V)>, k: K)
    requires items == []
    ensures LastValue(items, k).None?
  {
  }

  lemma LastValueOfLonger<K, V>(items: seq<(K, V)>, item: (K, V), k: K)
    ensures LastValue(items + [item], k) == if item.0 == k then Some(item.1) else LastValue(items, k)
  {
    assert (items + [item])[..|items|] == items;
  }

  lemma {:induction false} NoneCollected<A(!new), K(!new), V(!new)>(f: A -> Result<Option<(K, V)>>, rows: seq<A>, k: K)
    requires Collect(f, rows).Success?
    ensures LastValue(Collect(f, rows).value, k).None? <==> forall i :: 0 <= i < |rows| ==> !GivesKey(f(rows[i]), k)
  {
    if rows != [] {
      var n := |rows| - 1;
      NoneCollected(f, rows[..n], k);
      assert forall i :: 0 <= i < n ==> rows[..n][i] == rows[i];
      if f(rows[n]).value.Some? {
        LastValueOfLonger(Collect(f, rows[..n]).value, f(rows[n]).value.value, k);
      }
    }
  }

  /** A table after all rows have been upserted: the last that gives the key, or else what was there. */
  lemma UpsertedRow<A(!new), K(!new), V(!new)>(m: map<K, V>, f: A -> Result<Option<(K, V)>>, rows: seq<A>, k: K, v: V)
    requires Collect(f, rows).Success?
    ensures var after := Upsert(m, Collect(f, rows).value);
      k in after && after[k] == v <==>
      (exists i: nat :: IsLast(f, rows, i, k, v)) ||
      ((forall i :: 0 <= i < |rows| ==> !GivesKey(f(rows[i]), k)) && k in m && m[k] == v)
  {
    hide IsLast, Collect, GivesKey;
    UpsertLookup(m, Collect(f, rows).value, k);
    LastOfCollected(f, rows, k, v);
    NoneCollected(f, rows, k);
  }

  /** f, with what it keeps turned into a table row. */
  function Keyed<A, B, K, V>(f: A -> Result<Option<B>>, g: B -> (K, V)): A -> Result<Option<(K, V)>> {
    (a: A) =>
      match f(a)
      case Failure => Failure
      case Success(None) => Success(None)
      case Success(Some(b)) => Success(Some(g(b)))
  }

  lemma {:induction false} CollectKeyed<A, B, K, V>(f: A -> Result<Option<B>>, g: B -> (K, V), rows: seq<A>)
    requires Collect(f, rows).Success?
    ensures Collect(Keyed(f, g), rows).Success?
    ensures var kept, items := Collect(f, rows).value, Collect(Keyed(f, g), rows).value;
      |items| == |kept| && forall i :: 0 <= i < |kept| ==> items[i] == g(kept[i])
  {
    if rows != [] {
      CollectKeyed(f, g, rows[..|rows| - 1]);
    }
  }

  // ---------------------------------------------------------------- when an archive can be read at all

  predicate StopsRead(rows: seq<Row>) {
    forall i :: 0 <= i < |rows| ==> !Breaks(rows[i], "stop_id") && !Breaks(rows[i], "stop_name")
  }

  predicate RoutesRead(rows: seq<Row>) { forall i :: 0 <= i < |rows| ==> !Breaks(rows[i], "route_id") }

  predicate TripsRead(rows: seq<Row>) {
    forall i :: 0 <= i < |rows| ==>
      !Breaks(rows[i], "trip_id") && !Breaks(rows[i], "service_id") && !Breaks(rows[i], "route_id")
  }

  predicate ServicesRead(rows: seq<Row>) { forall i :: 0 <= i < |rows| ==> !Breaks(rows[i], "service_id") }

  /** Nor has any departure_time a group of too many digits. */
  predicate StopTimesRead(rows: seq<Row>) {
    forall i :: 0 <= i < |rows| ==>
      !Breaks(rows[i], "trip_id") && !Breaks(rows[i], "stop_id") && TimeOfRow(rows[i]).Success?
  }

  function TimeOfRow(row: Row): Result<Option<int>> {
    TimeSecondsOrNone(if "departure_time" in row then row["departure_time"] else None)
  }

  /** The four required files are there, and no cell that has to be stripped is missing from its row. */
  predicate IsReadable(a: Archive) {
    a.stops.Some? && StopsRead(a.stops.value) && a.routes.Some? && RoutesRead(a.routes.value) &&
    a.trips.Some? && TripsRead(a.trips.value) && a.stopTimes.Some? && StopTimesRead(a.stopTimes.value) &&
    (a.calendar.Some? ==> ServicesRead(a.calendar.value)) &&
    (a.calendarDates.Some? ==> ServicesRead(a.calendarDates.value))
  }

  lemma ReadersFail(row: Row, routes: map<string, string>)
    ensures StopOf(row).Failure? <==> Breaks(row, "stop_id") || Breaks(row, "stop_name")
    ensures RouteOf(row).Failure? <==> Breaks(row, "route_id")
    ensures TripOf(routes)(row).Failure? <==>
            Breaks(row, "trip_id") || Breaks(row, "service_id") || Breaks(row, "route_id")
  {
    hide Strip, Normalize, OptionalText, RouteName, Coordinate;
  }

  lemma CalendarReadersFail(row: Row)
    ensures RangeOf(row).Failure? <==> Breaks(row, "service_id")
    ensures ExceptionOf(row).Failure? <==> Breaks(row, "service_id")
  {
    hide Strip, DateOrNone;
  }

  lemma StopTimeReaderFails(row: Row, trips: map<string, StagedTrip>)
    ensures DepartureOf(trips)(row).Failure? <==>
            Breaks(row, "trip_id") || Breaks(row, "stop_id") || TimeOfRow(row).Failure?
  {
    hide Strip, IntegerOrNone, TimeSecondsOrNone;
  }

  lemma FilesRead(rows: seq<Row>, routes: map<string, string>, trips: map<string, StagedTrip>)
    ensures Collect(StopOf, rows).Success? <==> StopsRead(rows)
    ensures Collect(RouteOf, rows).Success? <==> RoutesRead(rows)
    ensures Collect(TripOf(routes), rows).Success? <==> TripsRead(rows)
    ensures Collect(RangeOf, rows).Success? <==> ServicesRead(rows)
    ensures Collect(ExceptionOf, rows).Success? <==> ServicesRead(rows)
    ensures Collect(DepartureOf(trips), rows).Success? <==> StopTimesRead(rows)
  {
    hide Collect, StopOf, RouteOf, TripOf, DepartureOf, RangeOf, ExceptionOf, Breaks, TimeOfRow;
    CollectFails(StopOf, rows);
    CollectFails(RouteOf, rows);
    CollectFails(TripOf(routes), rows);
    CollectFails(RangeOf, rows);
    CollectFails(ExceptionOf, rows);
    CollectFails(DepartureOf(trips), rows);
    forall i | 0 <= i < |rows|
      ensures StopOf(rows[i]).Failure? <==> Breaks(rows[i], "stop_id") || Breaks(rows[i], "stop_name")
      ensures RouteOf(rows[i]).Failure? <==> Breaks(rows[i], "route_id")
      ensures TripOf(routes)(rows[i]).Failure? <==>
              Breaks(rows[i], "trip_id") || Breaks(rows[i], "service_id") || Breaks(rows[i], "route_id")
      ensures RangeOf(rows[i]).Failure? <==> Breaks(rows[i], "service_id")
      ensures ExceptionOf(rows[i]).Failure? <==> Breaks(rows[i], "service_id")
      ensures DepartureOf(trips)(rows[i]).Failure? <==>
              Breaks(rows[i], "trip_id") || Breaks(rows[i], "stop_id") || TimeOfRow(rows[i]).Failure?
    {
      ReadersFail(rows[i], routes);
      CalendarReadersFail(rows[i]);
      StopTimeReaderFails(rows[i], trips);
    }
  }

  /** An archive is parsed exactly when it is readable. */
  lemma ParsesExactly(a: Archive)
    ensures Parse(a).Success? <==> IsReadable(a)
  {
    hide Collect, StopOf, RouteOf, TripOf, DepartureOf, RangeOf, ExceptionOf;
    hide StopsRead, RoutesRead, TripsRead, ServicesRead, StopTimesRead;
    FilesRead(OptionalFile(a.calendar), map[], map[]);
    FilesRead(OptionalFile(a.calendarDates), map[], map[]);
    NothingBreaks();
    if a.stops.Some? && a.routes.Some? && a.trips.Some? && a.stopTimes.Some? {
      FilesRead(a.stops.value, map[], map[]);
      FilesRead(a.routes.value, map[], map[]);
      var routes := if Routes(a.routes.value).Success? then Routes(a.routes.value).value else map[];
      FilesRead(a.trips.value, routes, map[]);
      var trips := if Trips(routes, a.trips.value).Success? then Trips(routes, a.trips.value).value else map[];
      FilesRead(a.stopTimes.value, map[], trips);
    }
  }

  lemma NothingBreaks()
    ensures ServicesRead([])
  {
  }

  // ---------------------------------------------------------------- stops

  /** A stops.txt row that counts: it has an id, and a name that is not blank. */
  predicate UsableStop(row: Row, id: string) {
    id != "" && Reads(row, "stop_id", id) &&
    "stop_name" in row && row["stop_name"].Some? && Normalize(row["stop_name"].value) != ""
  }

  /** A coordinate is the cell as it stands, unless it is empty. */
  predicate HoldsCoordinate(row: Row, column: string, coordinate: Option<string>) {
    match coordinate
    case Some(v) => v != "" && Holds(row, column, Some(v))
    case None => Holds(row, column, None) || Holds(row, column, Some(""))
  }

  predicate StopGives(row: Row, v: StopRow) {
    "stop_name" in row && row["stop_name"].Some? && v.name == Normalize(row["stop_name"].value) &&
    HoldsText(row, "stop_code", v.code) &&
    HoldsCoordinate(row, "stop_lat", v.latitude) && HoldsCoordinate(row, "stop_lon", v.longitude)
  }

  function AsStopItem(slug: Slug): Stop -> (StopKey, StopRow) { (s: Stop) => StopItem(slug, s) }

  function StopReader(slug: Slug): Row -> Result<Option<(StopKey, StopRow)>> { Keyed(StopOf, AsStopItem(slug)) }

  lemma StopRowReads(slug: Slug, row: Row, k: StopKey, v: StopRow)
    requires StopOf(row).Success?
    ensures StopReader(slug)(row) == Success(Some((k, v))) <==>
            k.slug == slug && UsableStop(row, k.stopId) && StopGives(row, v)
    ensures GivesKey(StopReader(slug)(row), k) <==> k.slug == slug && UsableStop(row, k.stopId)
  {
    NormalizeMeaning("");
    hide Strip, Normalize;
  }

  /** The stops.txt row that is stored under the id: the last that counts. */
  ghost predicate StoresStop(rows: seq<Row>, id: string, v: StopRow) {
    exists i :: 0 <= i < |rows| && UsableStop(rows[i], id) && StopGives(rows[i], v) &&
                forall j :: i < j < |rows| ==> !UsableStop(rows[j], id)
  }

  lemma CollectStops(slug: Slug, rows: seq<Row>)
    requires Collect(StopOf, rows).Success?
    ensures Collect(StopReader(slug), rows) == Success(StopItems(slug, Collect(StopOf, rows).value))
  {
    hide StopOf;
    CollectKeyed(StopOf, AsStopItem(slug), rows);
    assert Collect(StopReader(slug), rows).value == StopItems(slug, Collect(StopOf, rows).value);
  }

  lemma StopIsStored(slug: Slug, rows: seq<Row>, k: StopKey, v: StopRow)
    requires Collect(StopOf, rows).Success?
    ensures (exists i: nat :: IsLast(StopReader(slug), rows, i, k, v)) <==>
            k.slug == slug && StoresStop(rows, k.stopId, v)
    ensures (forall i :: 0 <= i < |rows| ==> !GivesKey(StopReader(slug)(rows[i]), k)) <==>
            !(k.slug == slug && exists i :: 0 <= i < |rows| && UsableStop(rows[i], k.stopId))
  {
    hide StopOf, UsableStop, StopGives, StopReader, Collect;
    var f := StopReader(slug);
    CollectFails(StopOf, rows);
    forall i | 0 <= i < |rows|
      ensures f(rows[i]) == Success(Some((k, v))) <==>
              k.slug == slug && UsableStop(rows[i], k.stopId) && StopGives(rows[i], v)
      ensures GivesKey(f(rows[i]), k) <==> k.slug == slug && UsableStop(rows[i], k.stopId)
    {
      StopRowReads(slug, rows[i], k, v);
    }
    hide GivesKey;
    if i: nat :| IsLast(f, rows, i, k, v) {
      assert UsableStop(rows[i], k.stopId) && StopGives(rows[i], v);
    }
    if k.slug == slug && StoresStop(rows, k.stopId, v) {
      var i :| 0 <= i < |rows| && UsableStop(rows[i], k.stopId) && StopGives(rows[i], v) &&
               forall j :: i < j < |rows| ==> !UsableStop(rows[j], k.stopId);
      assert IsLast(f, rows, i, k, v);
    }
  }

  /** After an import a stop is what the last usable row with its id says; without one it is what it was. */
  lemma ImportedStops(t: Tables, slug: Slug, a: Archive, k: StopKey, v: StopRow)
    requires Parse(a).Success?
    ensures var after := Appended(t, slug, Parse(a).value).stops;
      k in after && after[k] == v <==>
      (k.slug == slug && StoresStop(a.stops.value, k.stopId, v)) ||
      (!(k.slug == slug && exists i :: 0 <= i < |a.stops.value| && UsableStop(a.stops.value[i], k.stopId)) &&
       k in t.stops && t.stops[k] == v)
  {
    hide StopOf, UsableStop, StoresStop, StopReader, Collect, Upsert, StopItems, IsLast, GivesKey;
    var rows := a.stops.value;
    CollectStops(slug, rows);
    StopIsStored(slug, rows, k, v);
    UpsertedRow(t.stops, StopReader(slug), rows, k, v);
  }

  // ---------------------------------------------------------------- routes

  predicate ListsRoute(row: Row, id: string) { id != "" && Reads(row, "route_id", id) }

  /** A routes.txt row names its route by the short name, else by the long name, else by the id. */
  predicate NamesRoute(row: Row, id: string, name: string) {
    HoldsText(row, "route_short_name", Some(name)) ||
    (HoldsText(row, "route_short_name", None) && HoldsText(row, "route_long_name", Some(name))) ||
    (HoldsText(row, "route_short_name", None) && HoldsText(row, "route_long_name", None) && name == id)
  }

  /** The last row that lists the route names it; an unlisted one goes by its id. */
  ghost predicate IsCalled(rows: seq<Row>, id: string, name: string) {
    (exists i :: 0 <= i < |rows| && ListsRoute(rows[i], id) && NamesRoute(rows[i], id, name) &&
                 forall j :: i < j < |rows| ==> !ListsRoute(rows[j], id)) ||
    ((forall i :: 0 <= i < |rows| ==> !ListsRoute(rows[i], id)) && name == id)
  }

  lemma RouteRowReads(row: Row, id: string, name: string)
    requires RouteOf(row).Success?
    ensures RouteOf(row) == Success(Some((id, name))) <==> ListsRoute(row, id) && NamesRoute(row, id, name)
    ensures GivesKey(RouteOf(row), id) <==> ListsRoute(row, id)
  {
    hide Strip;
  }

  lemma RoutesAreCalled(rows: seq<Row>, id: string, name: string)
    requires Routes(rows).Success?
    ensures RouteName(Routes(rows).value, id) == name <==> IsCalled(rows, id, name)
  {
    hide RouteOf, ListsRoute, NamesRoute, Collect, Upsert;
    CollectFails(RouteOf, rows);
    UpsertedRow(map[], RouteOf, rows, id, name);
    UpsertLookup(map[], Collect(RouteOf, rows).value, id);
    NoneCollected(RouteOf, rows, id);
    RoutesAreNamed(rows, id);
    forall i | 0 <= i < |rows|
      ensures RouteOf(rows[i]) == Success(Some((id, name))) <==>
              ListsRoute(rows[i], id) && NamesRoute(rows[i], id, name)
      ensures GivesKey(RouteOf(rows[i]), id) <==> ListsRoute(rows[i], id)
    {
      RouteRowReads(rows[i], id, name);
    }
    hide GivesKey;
    if i: nat :| IsLast(RouteOf, rows, i, id, name) {
      assert ListsRoute(rows[i], id) && NamesRoute(rows[i], id, name);
    }
    if i :| 0 <= i < |rows| && ListsRoute(rows[i], id) && NamesRoute(rows[i], id, name) &&
            forall j :: i < j < |rows| ==> !ListsRoute(rows[j], id) {
      assert IsLast(RouteOf, rows, i, id, name);
    }
  }

  // ---------------------------------------------------------------- trips

  /** A trips.txt row that counts: it has an id and a service. */
  predicate UsableTrip(row: Row, id: string) {
    id != "" && Reads(row, "trip_id", id) && !Reads(row, "service_id", "")
  }

  ghost predicate TripGives(routeRows: seq<Row>, row: Row, trip: StagedTrip) {
    Reads(row, "service_id", trip.serviceId) && HoldsText(row, "trip_headsign", trip.destination) &&
    exists route :: Reads(row, "route_id", route) && IsCalled(routeRows, route, trip.routeName)
  }

  predicate IsKnownTrip(rows: seq<Row>, id: string) { exists i :: 0 <= i < |rows| && UsableTrip(rows[i], id) }

  /** The trip is what the last row that counts says. */
  ghost predicate KnowsTrip(routeRows: seq<Row>, rows: seq<Row>, id: string, trip: StagedTrip) {
    exists i :: 0 <= i < |rows| && UsableTrip(rows[i], id) && TripGives(routeRows, rows[i], trip) &&
                forall j :: i < j < |rows| ==> !UsableTrip(rows[j], id)
  }

  lemma TripRowReads(routeRows: seq<Row>, row: Row, id: string, trip: StagedTrip)
    requires Routes(routeRows).Success? && TripOf(Routes(routeRows).value)(row).Success?
    ensures var read := TripOf(Routes(routeRows).value)(row);
      (read == Success(Some((id, trip))) <==> UsableTrip(row, id) && TripGives(routeRows, row, trip)) &&
      (GivesKey(read, id) <==> UsableTrip(row, id))
  {
    hide Strip, Routes, RouteName, IsCalled;
    var route := Stripped(row, "route_id").value;
    assert Reads(row, "route_id", route);
    RoutesAreCalled(routeRows, route, trip.routeName);
  }

  lemma TripsAreKnown(routeRows: seq<Row>, rows: seq<Row>, id: string, trip: StagedTrip)
    requires Routes(routeRows).Success? && Trips(Routes(routeRows).value, rows).Success?
    ensures var trips := Trips(Routes(routeRows).value, rows).value;
      (id in trips && trips[id] == trip <==> KnowsTrip(routeRows, rows, id, trip)) &&
      (id in trips <==> IsKnownTrip(rows, id))
  {
    hide TripOf, UsableTrip, TripGives, Collect, Upsert, Routes;
    var f := TripOf(Routes(routeRows).value);
    CollectFails(f, rows);
    UpsertedRow(map[], f, rows, id, trip);
    UpsertLookup(map[], Collect(f, rows).value, id);
    NoneCollected(f, rows, id);
    forall i | 0 <= i < |rows|
      ensures f(rows[i]) == Success(Some((id, trip))) <==>
              UsableTrip(rows[i], id) && TripGives(routeRows, rows[i], trip)
      ensures GivesKey(f(rows[i]), id) <==> UsableTrip(rows[i], id)
    {
      TripRowReads(routeRows, rows[i], id, trip);
    }
    hide GivesKey;
    if i: nat :| IsLast(f, rows, i, id, trip) {
      assert UsableTrip(rows[i], id) && TripGives(routeRows, rows[i], trip);
    }
    if i :| 0 <= i < |rows| && UsableTrip(rows[i], id) && TripGives(routeRows, rows[i], trip) &&
            forall j :: i < j < |rows| ==> !UsableTrip(rows[j], id) {
      assert IsLast(f, rows, i, id, trip);
    }
  }

  // ---------------------------------------------------------------- departures

  /** A stop_times.txt row that counts: of a known trip, at a stop, with a number and an accepted time. */
  predicate UsableStopTime(trips: seq<Row>, row: Row, trip: string, stop: string, sequence: int) {
    IsKnownTrip(trips, trip) && Reads(row, "trip_id", trip) && stop != "" && Reads(row, "stop_id", stop) &&
    IntegerOrNone(if "stop_sequence" in row then row["stop_sequence"] else None) == Some(sequence) &&
    TimeOfRow(row).Success? && TimeOfRow(row).value.Some?
  }

  /** The service, the route and the destination are the trip's, the time is the row's own. */
  ghost predicate StopTimeGives(a: Archive, row: Row, trip: string, v: DepartureRow)
    requires a.routes.Some? && a.trips.Some?
  {
    TimeOfRow(row) == Success(Some(v.scheduledSeconds)) &&
    KnowsTrip(a.routes.value, a.trips.value, trip, StagedTrip(v.serviceId, v.routeName, v.destination))
  }

  predicate UsableAs(a: Archive, slug: Slug, row: Row, k: DepartureKey)
    requires a.trips.Some?
  {
    k.slug == slug && UsableStopTime(a.trips.value, row, k.tripId, k.stopId, k.sequence)
  }

  /** The stop_times.txt row that is stored under the key: the last that counts. */
  ghost predicate StoresDeparture(a: Archive, slug: Slug, k: DepartureKey, v: DepartureRow)
    requires a.routes.Some? && a.trips.Some? && a.stopTimes.Some?
  {
    var rows := a.stopTimes.value;
    exists i :: 0 <= i < |rows| && UsableAs(a, slug, rows[i], k) && StopTimeGives(a, rows[i], k.tripId, v) &&
                forall j :: i < j < |rows| ==> !UsableAs(a, slug, rows[j], k)
  }

  ghost predicate IsStopTimeOf(a: Archive, row: Row, d: Departure)
    requires a.routes.Some? && a.trips.Some?
  {
    UsableStopTime(a.trips.value, row, d.tripId, d.stopId, d.sequence) &&
    StopTimeGives(a, row, d.tripId, DepartureRow(d.serviceId, d.scheduledSeconds, d.routeName, d.destination))
  }

  function TripsOf(a: Archive): map<string, StagedTrip>
    requires Parse(a).Success?
  {
    Trips(Routes(a.routes.value).value, a.trips.value).value
  }

  lemma StopTimeReads(a: Archive, row: Row, d: Departure)
    requires Parse(a).Success? && DepartureOf(TripsOf(a))(row).Success?
    ensures DepartureOf(TripsOf(a))(row) == Success(Some(d)) <==> IsStopTimeOf(a, row, d)
  {
    hide Strip, Trips, KnowsTrip, IsKnownTrip, IntegerOrNone, TimeSecondsOrNone;
    TripsAreKnown(a.routes.value, a.trips.value, d.tripId, StagedTrip(d.serviceId, d.routeName, d.destination));
  }

  function AsDepartureItem(slug: Slug): Departure -> (DepartureKey, DepartureRow) {
    (d: Departure) => DepartureItem(slug, d)
  }

  function DepartureReader(slug: Slug, a: Archive): Row -> Result<Option<(DepartureKey, DepartureRow)>>
    requires Parse(a).Success?
  {
    Keyed(DepartureOf(TripsOf(a)), AsDepartureItem(slug))
  }

  lemma {:induction false} CollectsAll<A, B>(f: A -> Result<Option<B>>, rows: seq<A>, i: nat, b: B)
    requires Collect(f, rows).Success? && i < |rows| && f(rows[i]) == Success(Some(b))
    ensures b in Collect(f, rows).value
  {
    var n := |rows| - 1;
    if i < n { CollectsAll(f, rows[..n], i, b); }
  }

  /**
   * A departure is parsed exactly when some stop_times.txt row that counts and the last trips.txt row of its trip
   * that counts give it, with the route's name from the last routes.txt row that lists it.
   */
  lemma ParsedDepartures(a: Archive, d: Departure)
    requires Parse(a).Success?
    ensures d in Parse(a).value.departures <==>
            exists i :: 0 <= i < |a.stopTimes.value| && IsStopTimeOf(a, a.stopTimes.value[i], d)
  {
    hide DepartureOf, IsStopTimeOf, TripsOf, Collect;
    var rows := a.stopTimes.value;
    var f := DepartureOf(TripsOf(a));
    ParsesDepartures(a);
    CollectFails(f, rows);
    if d in Parse(a).value.departures {
      CollectedFrom(f, rows, d);
      var i :| 0 <= i < |rows| && f(rows[i]) == Success(Some(d));
      StopTimeReads(a, rows[i], d);
    }
    if i :| 0 <= i < |rows| && IsStopTimeOf(a, rows[i], d) {
      StopTimeReads(a, rows[i], d);
      CollectsAll(f, rows, i, d);
    }
  }

  lemma ParsesDepartures(a: Archive)
    requires Parse(a).Success?
    ensures Collect(DepartureOf(TripsOf(a)), a.stopTimes.value) == Success(Parse(a).value.departures)
  {
    hide Collect, DepartureOf, Trips, Routes;
  }

  lemma DepartureRowReads(slug: Slug, a: Archive, row: Row, k: DepartureKey, v: DepartureRow)
    requires Parse(a).Success? && DepartureOf(TripsOf(a))(row).Success?
    ensures DepartureReader(slug, a)(row) == Success(Some((k, v))) <==>
            UsableAs(a, slug, row, k) && StopTimeGives(a, row, k.tripId, v)
  {
    assert a.routes.Some? && a.trips.Some?;
    hide Parse, DepartureOf, TripsOf, UsableStopTime, StopTimeGives;
    var d := Departure(k.tripId, k.stopId, k.sequence, v.serviceId, v.scheduledSeconds, v.routeName, v.destination);
    StopTimeReads(a, row, d);
    assert DepartureItem(k.slug, d) == (k, v);
  }

  lemma DepartureKeyReads(slug: Slug, a: Archive, row: Row, k: DepartureKey)
    requires Parse(a).Success? && DepartureOf(TripsOf(a))(row).Success?
    ensures GivesKey(DepartureReader(slug, a)(row), k) <==> UsableAs(a, slug, row, k)
  {
    assert a.routes.Some? && a.trips.Some?;
    hide Parse, DepartureOf, TripsOf, UsableStopTime, StopTimeGives;
    var read := DepartureOf(TripsOf(a))(row);
    if UsableStopTime(a.trips.value, row, k.tripId, k.stopId, k.sequence) {
      var d := UsableGives(a, row, k.tripId, k.stopId, k.sequence);
      StopTimeReads(a, row, d);
      hide IsStopTimeOf;
    } else if read.value.Some? {
      StopTimeReads(a, row, read.value.value);
    }
  }

  /** A row that counts does give a departure. */
  lemma UsableGives(a: Archive, row: Row, trip: string, stop: string, sequence: int) returns (d: Departure)
    requires Parse(a).Success? && UsableStopTime(a.trips.value, row, trip, stop, sequence)
    ensures IsStopTimeOf(a, row, d) && d.tripId == trip && d.stopId == stop && d.sequence == sequence
  {
    hide Trips, KnowsTrip, IsKnownTrip, TimeOfRow, IntegerOrNone, Reads;
    TripsAreKnown(a.routes.value, a.trips.value, trip, StagedTrip("", "", None));
    var t := TripsOf(a)[trip];
    TripsAreKnown(a.routes.value, a.trips.value, trip, t);
    d := Departure(trip, stop, sequence, t.serviceId, TimeOfRow(row).value.value, t.routeName, t.destination);
  }

  lemma CollectDepartures(slug: Slug, a: Archive)
    requires Parse(a).Success?
    ensures Collect(DepartureReader(slug, a), a.stopTimes.value) ==
            Success(DepartureItems(slug, Parse(a).value.departures))
  {
    hide DepartureOf, TripsOf;
    ParsesDepartures(a);
    hide Parse;
    CollectKeyed(DepartureOf(TripsOf(a)), AsDepartureItem(slug), a.stopTimes.value);
    assert Collect(DepartureReader(slug, a), a.stopTimes.value).value ==
           DepartureItems(slug, Parse(a).value.departures);
  }

  /** After an import a departure is what the last row with its key says; without one it is what it was. */
  lemma ImportedDepartures(t: Tables, slug: Slug, a: Archive, k: DepartureKey, v: DepartureRow)
    requires Parse(a).Success?
    ensures var after := Appended(t, slug, Parse(a).value).departures;
      k in after && after[k] == v <==>
      StoresDeparture(a, slug, k, v) ||
      ((forall i :: 0 <= i < |a.stopTimes.value| ==> !UsableAs(a, slug, a.stopTimes.value[i], k)) &&
       k in t.departures && t.departures[k] == v)
  {
    hide DepartureOf, TripsOf, UsableAs, StopTimeGives, DepartureReader, Collect, Upsert, DepartureItems;
    var rows := a.stopTimes.value;
    var f := DepartureReader(slug, a);
    ParsesDepartures(a);
    CollectFails(DepartureOf(TripsOf(a)), rows);
    CollectDepartures(slug, a);
    UpsertedRow(t.departures, f, rows, k, v);
    forall i | 0 <= i < |rows|
      ensures f(rows[i]) == Success(Some((k, v))) <==>
              UsableAs(a, slug, rows[i], k) && StopTimeGives(a, rows[i], k.tripId, v)
      ensures GivesKey(f(rows[i]), k) <==> UsableAs(a, slug, rows[i], k)
    {
      DepartureRowReads(slug, a, rows[i], k, v);
      DepartureKeyReads(slug, a, rows[i], k);
    }
    hide GivesKey;
    if i: nat :| IsLast(f, rows, i, k, v) {
      assert StoresDeparture(a, slug, k, v);
    }
    if StoresDeparture(a, slug, k, v) {
      var i :| 0 <= i < |rows| && UsableAs(a, slug, rows[i], k) && StopTimeGives(a, rows[i], k.tripId, v) &&
               forall j :: i < j < |rows| ==> !UsableAs(a, slug, rows[j], k);
      assert IsLast(f, rows, i, k, v);
    }
  }

  // ---------------------------------------------------------------- service dates

  predicate ReadsDay(row: Row, column: string, day: Day) {
    column in row && DateOrNone(row[column]) == Some(day)
  }

  /** The column of calendar.txt for a day; day 1, the first of January of the year 1, is a Monday. */
  function WeekdayColumn(day: Day): string {
    if day % 7 == 1 then "monday" else if day % 7 == 2 then "tuesday" else if day % 7 == 3 then "wednesday"
    else if day % 7 == 4 then "thursday" else if day % 7 == 5 then "friday" else if day % 7 == 6 then "saturday"
    else "sunday"
  }

  /** A calendar.txt row with which the service runs on the day. */
  ghost predicate RunsWeekly(row: Row, service: string, day: Day) {
    service != "" && Reads(row, "service_id", service) && Holds(row, WeekdayColumn(day), Some("1")) &&
    exists first, last :: ReadsDay(row, "start_date", first) && ReadsDay(row, "end_date", last) && first <= day <= last
  }

  /** A calendar_dates.txt row about the service on the day: type 1 adds it, type 2 removes it. */
  predicate IsException(row: Row, service: string, day: Day, kind: string) {
    service != "" && Reads(row, "service_id", service) && ReadsDay(row, "date", day) &&
    Holds(row, "exception_type", Some(kind)) && kind in {"1", "2"}
  }

  predicate IsAnyException(row: Row, service: string, day: Day) {
    IsException(row, service, day, "1") || IsException(row, service, day, "2")
  }

  /** The last exception for the day decides; without one the service runs as some calendar row has it. */
  ghost predicate RunsOn(calendar: seq<Row>, exceptions: seq<Row>, service: string, day: Day) {
    (exists i :: 0 <= i < |exceptions| && IsException(exceptions[i], service, day, "1") &&
                 forall j :: i < j < |exceptions| ==> !IsAnyException(exceptions[j], service, day)) ||
    ((forall i :: 0 <= i < |exceptions| ==> !IsAnyException(exceptions[i], service, day)) &&
     exists i :: 0 <= i < |calendar| && RunsWeekly(calendar[i], service, day))
  }

  /** The seven names in their order: day 739768, the first of June 2026, is a Monday. */
  lemma WeekdayNames(day: Day)
    ensures WEEKDAYS[Weekday(day)] == WeekdayColumn(day)
    ensures WeekdayColumn(ToDay(Civil(2026, 6, 1))) == "monday"
  {
    assert ToDay(Civil(2026, 6, 1)) == 739768;
  }

  lemma ExceptionRowReads(row: Row, service: string, day: Day, added: bool)
    requires ExceptionOf(row).Success?
    ensures ExceptionOf(row) == Success(Some(((service, day), added))) <==>
            IsException(row, service, day, if added then "1" else "2")
    ensures GivesKey(ExceptionOf(row), (service, day)) <==> IsAnyException(row, service, day)
  {
    assert DateOrNone(None).None?;
    hide Strip, DateOrNone;
  }

  lemma RangeRowReads(row: Row, service: string, day: Day)
    requires RangeOf(row).Success?
    ensures RangeOf(row).value.Some? && Covers(RangeOf(row).value.value, service, day) <==>
            RunsWeekly(row, service, day)
  {
    assert DateOrNone(None).None?;
    WeekdayNames(day);
    var column, first, last :=
      WeekdayColumn(day), DateOrNone(Cell(row, "start_date")), DateOrNone(Cell(row, "end_date"));
    hide Strip, DateOrNone, Weekday, WeekdayColumn;
    assert Holds(row, column, Some("1")) <==> Cell(row, WEEKDAYS[Weekday(day)]) == Some("1");
    hide Holds, WEEKDAYS;
    assert first.Some? && last.Some? ==>
        ReadsDay(row, "start_date", first.value) && ReadsDay(row, "end_date", last.value);
  }

  lemma CalendarReads(rows: seq<Row>, service: string, day: Day)
    requires Collect(RangeOf, rows).Success?
    ensures (exists r :: r in Collect(RangeOf, rows).value && Covers(r, service, day)) <==>
            exists i :: 0 <= i < |rows| && RunsWeekly(rows[i], service, day)
  {
    hide RangeOf, Covers, RunsWeekly, Collect;
    CollectFails(RangeOf, rows);
    if r :| r in Collect(RangeOf, rows).value && Covers(r, service, day) {
      CollectedFrom(RangeOf, rows, r);
      var i :| 0 <= i < |rows| && RangeOf(rows[i]) == Success(Some(r));
      RangeRowReads(rows[i], service, day);
    }
    if i :| 0 <= i < |rows| && RunsWeekly(rows[i], service, day) {
      RangeRowReads(rows[i], service, day);
      CollectsAll(RangeOf, rows, i, RangeOf(rows[i]).value.value);
    }
  }

  lemma ExceptionsRead(rows: seq<Row>, service: string, day: Day, added: bool)
    requires Collect(ExceptionOf, rows).Success?
    ensures LastValue(Collect(ExceptionOf, rows).value, (service, day)) == Some(added) <==>
            exists i :: 0 <= i < |rows| && IsException(rows[i], service, day, if added then "1" else "2") &&
                        forall j :: i < j < |rows| ==> !IsAnyException(rows[j], service, day)
    ensures LastValue(Collect(ExceptionOf, rows).value, (service, day)).None? <==>
            forall i :: 0 <= i < |rows| ==> !IsAnyException(rows[i], service, day)
  {
    hide ExceptionOf, IsException, IsAnyException, Collect, LastValue;
    var f, k, kind := ExceptionOf, (service, day), if added then "1" else "2";
    CollectFails(f, rows);
    LastOfCollected(f, rows, k, added);
    NoneCollected(f, rows, k);
    forall i | 0 <= i < |rows|
      ensures f(rows[i]) == Success(Some((k, added))) <==> IsException(rows[i], service, day, kind)
      ensures GivesKey(f(rows[i]), k) <==> IsAnyException(rows[i], service, day)
    {
      ExceptionRowReads(rows[i], service, day, added);
    }
    hide GivesKey;
    if i: nat :| IsLast(f, rows, i, k, added) {
      assert IsException(rows[i], service, day, kind);
    }
    if i :| 0 <= i < |rows| && IsException(rows[i], service, day, kind) &&
            forall j :: i < j < |rows| ==> !IsAnyException(rows[j], service, day) {
      assert IsLast(f, rows, i, k, added);
    }
  }

  /** The service dates of an archive are exactly the dates on which each service runs. */
  lemma ParsedServiceDates(a: Archive, service: string, day: Day)
    requires Parse(a).Success?
    ensures (service, day) in Parse(a).value.serviceDates <==>
            RunsOn(OptionalFile(a.calendar), OptionalFile(a.calendarDates), service, day)
  {
    hide Collect, RangeOf, ExceptionOf, Covers, LastValue, Trips, Routes, RangeDates;
    assert ServiceDates(a) == Success(Parse(a).value.serviceDates);
    hide Parse;
    ServiceDatesExactly(a, service, day);
    CalendarReads(OptionalFile(a.calendar), service, day);
    ExceptionsRead(OptionalFile(a.calendarDates), service, day, true);
    ExceptionsRead(OptionalFile(a.calendarDates), service, day, false);
    hide IsException, IsAnyException, RunsWeekly;
  }

  /** And an import adds them to the provider's service dates. */
  lemma ImportedDates(t: Tables, slug: Slug, a: Archive, d: ServiceDate)
    requires Parse(a).Success?
    ensures d in Appended(t, slug, Parse(a).value).serviceDates <==>
            d in t.serviceDates ||
            (d.slug == slug && RunsOn(OptionalFile(a.calendar), OptionalFile(a.calendarDates), d.serviceId, d.day))
  {
    hide Parse, RunsOn;
    ParsedServiceDates(a, d.serviceId, d.day);
    assert d.slug == slug && (d.serviceId, d.day) in Parse(a).value.serviceDates ==>
        d in DateRows(slug, Parse(a).value.serviceDates);
  }

  // ---------------------------------------------------------------- which archives are accepted

  /** SQLite's 64-bit integers hold the numbers of all stop times that count. */
  ghost predicate NumbersFit(a: Archive)
    requires a.trips.Some? && a.stopTimes.Some?
  {
    forall i, trip, stop, sequence |
      0 <= i < |a.stopTimes.value| && UsableStopTime(a.trips.value, a.stopTimes.value[i], trip, stop, sequence)
      :: -9223372036854775808 <= sequence <= 9223372036854775807
  }

  /**
   * An archive is imported exactly when it is readable, SQLite's 64-bit integers hold every number of a stop time
   * that counts, and there is a row for the provider unless no stop counts.
   */
  lemma AcceptsExactly(t: Tables, slug: Slug, a: Archive)
    ensures Accepts(t, slug, a) <==>
            IsReadable(a) && NumbersFit(a) &&
            ((exists i, id :: 0 <= i < |a.stops.value| && UsableStop(a.stops.value[i], id)) ==> slug in t.providers)
  {
    hide Parse, UsableStopTime, UsableStop;
    ImportableExactly(a);
    ParsesExactly(a);
    if Parse(a).Success? { StopsExactly(a); }
  }

  lemma ImportableExactly(a: Archive)
    ensures Importable(a) <==> IsReadable(a) && NumbersFit(a)
  {
    hide Parse, UsableStopTime;
    ParsesExactly(a);
    if Parse(a).Success? { StorableExactly(a); }
  }

  lemma StorableExactly(a: Archive)
    requires Parse(a).Success?
    ensures Storable(Parse(a).value.departures) <==> NumbersFit(a)
  {
    var departures := Parse(a).value.departures;
    assert a.routes.Some? && a.trips.Some? && a.stopTimes.Some?;
    hide Parse, UsableStopTime, StopTimeGives;
    forall i, trip, stop, sequence |
      0 <= i < |a.stopTimes.value| && UsableStopTime(a.trips.value, a.stopTimes.value[i], trip, stop, sequence)
      ensures exists j :: 0 <= j < |departures| && departures[j].sequence == sequence
    {
      var d := UsableGives(a, a.stopTimes.value[i], trip, stop, sequence);
      ParsedDepartures(a, d);
    }
    forall j | 0 <= j < |departures|
      ensures exists i :: 0 <= i < |a.stopTimes.value| && IsStopTimeOf(a, a.stopTimes.value[i], departures[j])
    {
      ParsedDepartures(a, departures[j]);
    }
  }

  lemma StopsExactly(a: Archive)
    requires Parse(a).Success?
    ensures |Parse(a).value.stops| > 0 <==>
            exists i, id :: 0 <= i < |a.stops.value| && UsableStop(a.stops.value[i], id)
  {
    hide StopOf, UsableStop, StopGives, Collect;
    var rows, stops := a.stops.value, Parse(a).value.stops;
    CollectFails(StopOf, rows);
    if stops != [] {
      CollectedFrom(StopOf, rows, stops[0]);
      var i :| 0 <= i < |rows| && StopOf(rows[i]) == Success(Some(stops[0]));
      var (k, v) := StopItem("", stops[0]);
      StopRowReads("", rows[i], k, v);
    }
    if i, id :| 0 <= i < |rows| && UsableStop(rows[i], id) {
      StopRowReads("", rows[i], StopKey("", id), StopRow("", None, None, None));
      CollectsAll(StopOf, rows, i, StopOf(rows[i]).value.value);
    }
  }

  // ---------------------------------------------------------------- several archives

  predicate MentionsStop(a: Archive, slug: Slug, k: StopKey)
    requires Parse(a).Success?
  {
    k.slug == slug && exists i :: 0 <= i < |a.stops.value| && UsableStop(a.stops.value[i], k.stopId)
  }

  predicate MentionsDeparture(a: Archive, slug: Slug, k: DepartureKey)
    requires Parse(a).Success?
  {
    exists i :: 0 <= i < |a.stopTimes.value| && UsableAs(a, slug, a.stopTimes.value[i], k)
  }

  /** Some archive stores the stop, and no later one has a row that counts for it. */
  ghost predicate ProvidesStop(archives: seq<Option<Archive>>, slug: Slug, k: StopKey, v: StopRow)
    requires AllImportable(archives)
  {
    k.slug == slug &&
    exists i :: 0 <= i < |archives| && StoresStop(archives[i].value.stops.value, k.stopId, v) &&
                forall j :: i < j < |archives| ==> !MentionsStop(archives[j].value, slug, k)
  }

  /** Some archive stores the departure, and no later one has a row that counts for it. */
  ghost predicate ProvidesDeparture(archives: seq<Option<Archive>>, slug: Slug, k: DepartureKey, v: DepartureRow)
    requires AllImportable(archives)
  {
    exists i :: 0 <= i < |archives| && StoresDeparture(archives[i].value, slug, k, v) &&
                forall j :: i < j < |archives| ==> !MentionsDeparture(archives[j].value, slug, k)
  }

  ghost predicate RunsIn(a: Archive, service: string, day: Day) {
    RunsOn(OptionalFile(a.calendar), OptionalFile(a.calendarDates), service, day)
  }

  /** In some archive the service runs on the day. */
  ghost predicate ProvidesDate(archives: seq<Option<Archive>>, slug: Slug, d: ServiceDate)
    requires AllImportable(archives)
  {
    d.slug == slug && exists i :: 0 <= i < |archives| && RunsIn(archives[i].value, d.serviceId, d.day)
  }

  /** The rows that an archive makes on its own. */
  lemma OwnStops(slug: Slug, a: Archive, k: StopKey, v: StopRow)
    requires Parse(a).Success?
    ensures var own := FeedRows(slug, Parse(a).value).stops;
      (k in own && own[k] == v <==> k.slug == slug && StoresStop(a.stops.value, k.stopId, v)) &&
      (k in own <==> MentionsStop(a, slug, k))
  {
    hide StopOf, StopReader, UsableStop, StopGives, StoresStop, Collect, StopItems, Upsert;
    ImportedStops(EMPTY_TABLES, slug, a, k, v);
    var rows, f := a.stops.value, StopReader(slug);
    CollectFails(StopOf, rows);
    CollectStops(slug, rows);
    NoneCollected(f, rows, k);
    UpsertLookup(map[], StopItems(slug, Parse(a).value.stops), k);
    forall i | 0 <= i < |rows| ensures GivesKey(f(rows[i]), k) <==> k.slug == slug && UsableStop(rows[i], k.stopId) {
      StopRowReads(slug, rows[i], k, v);
    }
  }

  lemma OwnDepartures(slug: Slug, a: Archive, k: DepartureKey, v: DepartureRow)
    requires Parse(a).Success?
    ensures var own := FeedRows(slug, Parse(a).value).departures;
      (k in own && own[k] == v <==> StoresDeparture(a, slug, k, v)) && (k in own <==> MentionsDeparture(a, slug, k))
  {
    ImportedDepartures(EMPTY_TABLES, slug, a, k, v);
    OwnDepartureKeys(slug, a, k);
    hide Parse, StoresDeparture, UsableAs, DepartureItems, Upsert;
  }

  lemma OwnDepartureKeys(slug: Slug, a: Archive, k: DepartureKey)
    requires Parse(a).Success?
    ensures k in FeedRows(slug, Parse(a).value).departures <==> MentionsDeparture(a, slug, k)
  {
    hide DepartureOf, TripsOf, DepartureReader, UsableAs, Collect, DepartureItems, Upsert;
    var rows, f := a.stopTimes.value, DepartureReader(slug, a);
    ParsesDepartures(a);
    CollectFails(DepartureOf(TripsOf(a)), rows);
    CollectDepartures(slug, a);
    NoneCollected(f, rows, k);
    UpsertLookup(map[], DepartureItems(slug, Parse(a).value.departures), k);
    forall i | 0 <= i < |rows| ensures GivesKey(f(rows[i]), k) <==> UsableAs(a, slug, rows[i], k) {
      DepartureKeyReads(slug, a, rows[i], k);
    }
  }

  lemma OwnDates(slug: Slug, a: Archive, d: ServiceDate)
    requires Parse(a).Success?
    ensures d in FeedRows(slug, Parse(a).value).serviceDates <==> d.slug == slug && RunsIn(a, d.serviceId, d.day)
  {
    hide RunsOn, Parse;
    ImportedDates(EMPTY_TABLES, slug, a, d);
  }

  lemma MergedLast(slug: Slug, archives: seq<Option<Archive>>)
    requires AllImportable(archives) && archives != []
    ensures var n := |archives| - 1;
      AllImportable(archives[..n]) && Parse(archives[n].value).Success? &&
      MergedRows(slug, Feeds(archives)) ==
      Merge(MergedRows(slug, Feeds(archives[..n])), FeedRows(slug, Parse(archives[n].value).value))
  {
    hide Parse, FeedRows, Merge;
    var n := |archives| - 1;
    assert Feeds(archives)[..n] == Feeds(archives[..n]);
  }

  /** What several archives make of a stop: the last of them that mentions it decides. */
  lemma {:induction false} MergedStops(slug: Slug, archives: seq<Option<Archive>>, k: StopKey, v: StopRow)
    requires AllImportable(archives)
    ensures var rows := MergedRows(slug, Feeds(archives)).stops;
      k in rows && rows[k] == v <==> ProvidesStop(archives, slug, k, v)
  {
    hide Parse, FeedRows, MergedRows, StoresStop, MentionsStop;
    if archives == [] {
      assert MergedRows(slug, Feeds(archives)) == StaticRows(map[], {}, map[]) by { NothingMerged(slug); }
    } else {
      var n := |archives| - 1;
      var init, last := archives[..n], archives[n].value;
      MergedLast(slug, archives);
      MergedStops(slug, init, k, v);
      OwnStops(slug, last, k, v);
      assert forall i :: 0 <= i < n ==> init[i] == archives[i];
    }
  }

  lemma NothingMerged(slug: Slug)
    ensures MergedRows(slug, Feeds([])) == StaticRows(map[], {}, map[])
  {
  }

  /** And of a departure. */
  lemma {:induction false} MergedDepartures(slug: Slug, archives: seq<Option<Archive>>, k: DepartureKey,
                                            v: DepartureRow)
    requires AllImportable(archives)
    ensures var rows := MergedRows(slug, Feeds(archives)).departures;
      k in rows && rows[k] == v <==> ProvidesDeparture(archives, slug, k, v)
  {
    hide Parse, FeedRows, MergedRows, StoresDeparture, MentionsDeparture;
    if archives == [] {
      NothingMerged(slug);
    } else {
      var n := |archives| - 1;
      var init, last := archives[..n], archives[n].value;
      MergedLast(slug, archives);
      MergedDepartures(slug, init, k, v);
      OwnDepartures(slug, last, k, v);
      assert forall i :: 0 <= i < n ==> init[i] == archives[i];
    }
  }

  /** A service runs when it does in any of them. */
  lemma {:induction false} MergedDates(slug: Slug, archives: seq<Option<Archive>>, d: ServiceDate)
    requires AllImportable(archives)
    ensures d in MergedRows(slug, Feeds(archives)).serviceDates <==> ProvidesDate(archives, slug, d)
  {
    hide Parse, FeedRows, MergedRows, RunsIn;
    if archives == [] {
      NothingMerged(slug);
    } else {
      var n := |archives| - 1;
      var init, last := archives[..n], archives[n].value;
      MergedLast(slug, archives);
      MergedDates(slug, init, d);
      OwnDates(slug, last, d);
      assert forall i :: 0 <= i < n ==> init[i] == archives[i];
    }
  }
}
