/**
 * The materialising reader of app/repositories/gtfs_static.py: decoded CSV rows in, one
 * provider's normalised schedule out.
 */
module StaticFeed {
  import opened Prelude
  import opened Calendar
  import opened Text
  import opened Schema
  import opened StopName

  /**
   * One row of csv.DictReader. A row shorter than the header holds None in its last columns, and
   * stripping such a value raises, which fails the import.
   */
  type Row = map<string, Option<string>>

  /** The files of a GTFS archive; a file the ZIP does not hold is None. */
  datatype Archive = Archive(
    stops: Option<seq<Row>>, routes: Option<seq<Row>>, trips: Option<seq<Row>>, stopTimes: Option<seq<Row>>,
    calendar: Option<seq<Row>>, calendarDates: Option<seq<Row>>)

  datatype Stop = Stop(
    id: string, name: string, code: Option<string>, latitude: Option<string>, longitude: Option<string>)

  datatype Departure = Departure(
    tripId: string, stopId: string, sequence: int, serviceId: string, scheduledSeconds: int,
    routeName: string, destination: Option<string>)

  /** Service dates come out of Python sets, so their order means nothing. */
  datatype Feed = Feed(stops: seq<Stop>, serviceDates: set<(string, Day)>, departures: seq<Departure>)

  // ---------------------------------------------------------------- cells

  /** row.get(column). */
  function Cell(row: Row, column: string): Option<string> {
    if column in row then row[column] else None
  }

  /** row.get(column, ""). */
  function Raw(row: Row, column: string): Result<string> {
    if column !in row then Success("")
    else match row[column]
         case None => Failure
         case Some(v) => Success(v)
  }

  /** row.get(column, "").strip(). */
  function Stripped(row: Row, column: string): Result<string> {
    var v :- Raw(row, column);
    Success(Strip(v))
  }

  function File(rows: Option<seq<Row>>): Result<seq<Row>> {
    match rows case None => Failure case Some(r) => Success(r)
  }

  function OptionalFile(rows: Option<seq<Row>>): seq<Row> {
    match rows case None => [] case Some(r) => r
  }

  /** A coordinate is kept as its text; an empty one is NULL. */
  function Coordinate(value: Option<string>): Option<string> {
    if value.Some? && value.value != "" then value else None
  }

  // ---------------------------------------------------------------- stops, routes, trips, departures

  /** _parse_stops, one row. */
  function StopOf(row: Row): Result<Option<Stop>> {
    var id :- Stripped(row, "stop_id");
    var rawName :- Raw(row, "stop_name");
    var name := Normalize(rawName);
    if id == "" || name == "" then Success(None)
    else Success(Some(Stop(id, name, OptionalText(Cell(row, "stop_code")),
                           Coordinate(Cell(row, "stop_lat")), Coordinate(Cell(row, "stop_lon")))))
  }

  /** _routes, one row: the short name, else the long name, else the id. */
  function RouteOf(row: Row): Result<Option<(string, string)>> {
    var id :- Stripped(row, "route_id");
    if id == "" then Success(None)
    else
      var short, long := OptionalText(Cell(row, "route_short_name")), OptionalText(Cell(row, "route_long_name"));
      Success(Some((id, if short.Some? then short.value else if long.Some? then long.value else id)))
  }

  function Routes(rows: seq<Row>): Result<map<string, string>> {
    var items :- Collect(RouteOf, rows);
    Success(Upsert(map[], items))
  }

  /** routes.get(route_id) or route_id. */
  function RouteName(routes: map<string, string>, id: string): string {
    if id in routes && routes[id] != "" then routes[id] else id
  }

  /** _trips and _stage_trips, one row. */
  function TripOf(routes: map<string, string>): Row -> Result<Option<(string, StagedTrip)>> {
    (row: Row) =>
      var id :- Stripped(row, "trip_id");
      var service :- Stripped(row, "service_id");
      var route :- Stripped(row, "route_id");
      if id == "" || service == "" then Success(None)
      else Success(Some((id, StagedTrip(service, RouteName(routes, route), OptionalText(Cell(row, "trip_headsign"))))))
  }

  function Trips(routes: map<string, string>, rows: seq<Row>): Result<map<string, StagedTrip>> {
    var items :- Collect(TripOf(routes), rows);
    Success(Upsert(map[], items))
  }

  /** _departures, one row. */
  function DepartureOf(trips: map<string, StagedTrip>): Row -> Result<Option<Departure>> {
    (row: Row) =>
      var trip :- Stripped(row, "trip_id");
      var stop :- Stripped(row, "stop_id");
      var sequence := IntegerOrNone(Cell(row, "stop_sequence"));
      var seconds :- TimeSecondsOrNone(Cell(row, "departure_time"));
      if trip in trips && stop != "" && sequence.Some? && seconds.Some? then
        Success(Some(Departure(trip, stop, sequence.value, trips[trip].serviceId, seconds.value,
                               trips[trip].routeName, trips[trip].destination)))
      else Success(None)
  }

  // ---------------------------------------------------------------- service dates

  datatype Range = Range(serviceId: string, start: Day, end: Day, weekdays: seq<bool>)

  const WEEKDAYS: seq<string> :=
    ["monday", "tuesday", "wednesday", "thursday", "friday", "saturday", "sunday"]

  /** A calendar.txt row that counts: a service and a non-empty interval of accepted dates. */
  function RangeOf(row: Row): Result<Option<Range>> {
    var service :- Stripped(row, "service_id");
    var start, end := DateOrNone(Cell(row, "start_date")), DateOrNone(Cell(row, "end_date"));
    if service == "" || start.None? || end.None? || end.value < start.value then Success(None)
    else Success(Some(Range(service, start.value, end.value,
                            seq(7, i requires 0 <= i < 7 => Cell(row, WEEKDAYS[i]) == Some("1")))))
  }

  /** A calendar_dates.txt row that counts: true adds the date to the service, false removes it. */
  function ExceptionOf(row: Row): Result<Option<((string, Day), bool)>> {
    var service :- Stripped(row, "service_id");
    var day := DateOrNone(Cell(row, "date"));
    var kind := Cell(row, "exception_type");
    if service == "" || day.None? || (kind != Some("1") && kind != Some("2")) then Success(None)
    else Success(Some(((service, day.value), kind == Some("1"))))
  }

  predicate Covers(r: Range, service: string, day: Day) {
    r.serviceId == service && r.start <= day <= r.end &&
    |r.weekdays| == 7 && r.weekdays[Weekday(day)]
  }

  /** GTFS calendar.txt and calendar_dates.txt: the last exception decides, else the weekly pattern. */
  ghost predicate Serves(ranges: seq<Range>, exceptions: seq<((string, Day), bool)>, service: string, day: Day) {
    match LastValue(exceptions, (service, day))
    case Some(added) => added
    case None => exists r :: r in ranges && Covers(r, service, day)
  }

  function RangeDates(ranges: seq<Range>): set<(string, Day)> {
    set r, d | r in ranges && r.start <= d <= r.end && Covers(r, r.serviceId, d) :: (r.serviceId, d)
  }

  function WithExceptions(dates: set<(string, Day)>, exceptions: seq<((string, Day), bool)>): set<(string, Day)> {
    if exceptions == [] then dates
    else
      var n := |exceptions| - 1;
      var before := WithExceptions(dates, exceptions[..n]);
      if exceptions[n].1 then before + {exceptions[n].0} else before - {exceptions[n].0}
  }

  /** _service_dates, as the set of what it yields. */
  function ServiceDates(archive: Archive): Result<set<(string, Day)>> {
    var ranges :- Collect(RangeOf, OptionalFile(archive.calendar));
    var exceptions :- Collect(ExceptionOf, OptionalFile(archive.calendarDates));
    Success(WithExceptions(RangeDates(ranges), exceptions))
  }

  lemma {:induction false} ExceptionsDecide(dates: set<(string, Day)>, exceptions: seq<((string, Day), bool)>,
                                            p: (string, Day))
    ensures p in WithExceptions(dates, exceptions) <==>
            match LastValue(exceptions, p) case Some(added) => added case None => p in dates
  {
    if exceptions != [] {
      ExceptionsDecide(dates, exceptions[..|exceptions| - 1], p);
    }
  }

  /** The service dates of an archive are exactly the dates on which each service runs. */
  lemma ServiceDatesExactly(archive: Archive, service: string, day: Day)
    requires ServiceDates(archive).Success?
    ensures (service, day) in ServiceDates(archive).value <==>
            Serves(Collect(RangeOf, OptionalFile(archive.calendar)).value,
                   Collect(ExceptionOf, OptionalFile(archive.calendarDates)).value, service, day)
  {
    var ranges := Collect(RangeOf, OptionalFile(archive.calendar)).value;
    ExceptionsDecide(RangeDates(ranges), Collect(ExceptionOf, OptionalFile(archive.calendarDates)).value,
                     (service, day));
    if r :| r in ranges && Covers(r, service, day) {
      assert (r.serviceId, day) in RangeDates(ranges);
    }
  }

  /** Accepted dates only come from accepted texts. */
  lemma RangeAccepted(rows: seq<Row>, r: Range)
    requires Collect(RangeOf, rows).Success? && r in Collect(RangeOf, rows).value
    ensures FIRST_SERVICE_DAY <= r.start && r.end <= LAST_SERVICE_DAY
  {
    CollectedFrom(RangeOf, rows, r);
    var i :| 0 <= i < |rows| && RangeOf(rows[i]) == Success(Some(r));
    AcceptedRange(Cell(rows[i], "start_date"));
    AcceptedRange(Cell(rows[i], "end_date"));
  }

  lemma ExceptionAccepted(rows: seq<Row>, e: ((string, Day), bool))
    requires Collect(ExceptionOf, rows).Success? && e in Collect(ExceptionOf, rows).value
    ensures FIRST_SERVICE_DAY <= e.0.1 <= LAST_SERVICE_DAY
  {
    CollectedFrom(ExceptionOf, rows, e);
    var i :| 0 <= i < |rows| && ExceptionOf(rows[i]) == Success(Some(e));
    AcceptedRange(Cell(rows[i], "date"));
  }

  /** Every service date lies in the accepted years. */
  lemma ServiceDatesAccepted(archive: Archive, p: (string, Day))
    requires ServiceDates(archive).Success? && p in ServiceDates(archive).value
    ensures FIRST_SERVICE_DAY <= p.1 <= LAST_SERVICE_DAY
  {
    hide Collect, RangeOf, ExceptionOf, Covers;
    var calendar, calendarDates := OptionalFile(archive.calendar), OptionalFile(archive.calendarDates);
    var ranges := Collect(RangeOf, calendar).value;
    var exceptions := Collect(ExceptionOf, calendarDates).value;
    ExceptionsDecide(RangeDates(ranges), exceptions, p);
    if LastValue(exceptions, p).Some? {
      ExceptionAccepted(calendarDates, exceptions[LastIndex(exceptions, p)]);
    } else {
      var r :| r in ranges && r.start <= p.1 <= r.end;
      RangeAccepted(calendar, r);
    }
  }

  /** One service has at most the 36890 dates of the accepted years. */
  lemma ServiceDatesBounded(archive: Archive, service: string)
    requires ServiceDates(archive).Success?
    ensures |set p | p in ServiceDates(archive).value && p.0 == service| <= 36890
  {
    var dates := set p | p in ServiceDates(archive).value && p.0 == service;
    forall p | p in dates ensures FIRST_SERVICE_DAY <= p.1 <= LAST_SERVICE_DAY {
      ServiceDatesAccepted(archive, p);
    }
    AcceptedDays(service, dates);
  }

  // ---------------------------------------------------------------- the whole archive

  /** parse_static_feed. */
  function Parse(archive: Archive): Result<Feed> {
    var stopRows :- File(archive.stops);
    var stops :- Collect(StopOf, stopRows);
    var tripRows :- File(archive.trips);
    var routeRows :- File(archive.routes);
    var routes :- Routes(routeRows);
    var trips :- Trips(routes, tripRows);
    var serviceDates :- ServiceDates(archive);
    var stopTimeRows :- File(archive.stopTimes);
    var departures :- Collect(DepartureOf(trips), stopTimeRows);
    Success(Feed(stops, serviceDates, departures))
  }

  /** Every parsed stop has an id and a trimmed name, neither of them empty. */
  lemma ParsedStops(archive: Archive, s: Stop)
    requires Parse(archive).Success? && s in Parse(archive).value.stops
    ensures s.id != "" && Trimmed(s.id) && s.name != "" && Trimmed(s.name)
  {
    hide Normalize, Trips, Routes, ServiceDates;
    CollectedFrom(StopOf, archive.stops.value, s);
    var i :| 0 <= i < |archive.stops.value| && StopOf(archive.stops.value[i]) == Success(Some(s));
    NormalizeMeaning(Raw(archive.stops.value[i], "stop_name").value);
  }

  /** Every listed route has a non-empty trimmed name, so a trip falls back to its route id only for unlisted routes. */
  lemma RoutesAreNamed(rows: seq<Row>, id: string)
    requires Routes(rows).Success?
    ensures id in Routes(rows).value ==>
              Routes(rows).value[id] != "" && Trimmed(Routes(rows).value[id]) &&
                RouteName(Routes(rows).value, id) == Routes(rows).value[id]
    ensures id !in Routes(rows).value ==> RouteName(Routes(rows).value, id) == id
  {
    var items := Collect(RouteOf, rows).value;
    UpsertLookup(map[], items, id);
    if id in Routes(rows).value {
      CollectedFrom(RouteOf, rows, items[LastIndex(items, id)]);
    }
  }

  /** Every parsed departure time lies below 48 hours. */
  lemma ParsedTimes(archive: Archive, d: Departure)
    requires Parse(archive).Success? && d in Parse(archive).value.departures
    ensures 0 <= d.scheduledSeconds < TIME_LIMIT
  {
    var trips := Trips(Routes(archive.routes.value).value, archive.trips.value).value;
    CollectedFrom(DepartureOf(trips), archive.stopTimes.value, d);
  }

  // ---------------------------------------------------------------- as table rows

  function StopItem(slug: Slug, s: Stop): (StopKey, StopRow) {
    (StopKey(slug, s.id), StopRow(s.name, s.code, s.latitude, s.longitude))
  }

  function StopItems(slug: Slug, stops: seq<Stop>): (r: seq<(StopKey, StopRow)>)
    ensures |r| == |stops|
  {
    seq(|stops|, i requires 0 <= i < |stops| => StopItem(slug, stops[i]))
  }

  function DepartureItem(slug: Slug, d: Departure): (DepartureKey, DepartureRow) {
    (DepartureKey(slug, d.tripId, d.stopId, d.sequence),
     DepartureRow(d.serviceId, d.scheduledSeconds, d.routeName, d.destination))
  }

  function DepartureItems(slug: Slug, departures: seq<Departure>): (r: seq<(DepartureKey, DepartureRow)>)
    ensures |r| == |departures|
  {
    seq(|departures|, i requires 0 <= i < |departures| => DepartureItem(slug, departures[i]))
  }

  function DateRows(slug: Slug, dates: set<(string, Day)>): set<ServiceDate> {
    set p | p in dates :: ServiceDate(slug, p.0, p.1)
  }

  /** The last-row-wins meaning of appending a feed: upsert stops and departures, add the dates. */
  function Appended(t: Tables, slug: Slug, feed: Feed): Tables {
    t.(stops := Upsert(t.stops, StopItems(slug, feed.stops)),
       serviceDates := t.serviceDates + DateRows(slug, feed.serviceDates),
       departures := Upsert(t.departures, DepartureItems(slug, feed.departures)))
  }

  /** SQLite can hold every stop_sequence. */
  predicate Storable(departures: seq<Departure>) {
    forall i :: 0 <= i < |departures| ==> FitsInteger(departures[i].sequence)
  }

  /** No stop id repeats, and no (trip, stop, sequence). */
  ghost predicate KeysUnique(slug: Slug, feed: Feed) {
    DistinctKeys(StopItems(slug, feed.stops)) && DistinctKeys(DepartureItems(slug, feed.departures))
  }
}
