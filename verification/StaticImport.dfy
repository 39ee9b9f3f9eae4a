/**
 * The importers of app/repositories/gtfs_static.py as they write the database: the materialising
 * one, and the streaming one with its temporary trip table and its flushed batches.
 */
module StaticImport {
  import opened Prelude
  import opened Calendar
  import opened Text
  import opened Schema
  import opened StaticFeed

  /** _trips: a dict filled row by row. */
  method ReadTrips(rows: seq<Row>, routes: map<string, string>) returns (r: Result<map<string, StagedTrip>>)
    ensures r == Trips(routes, rows)
  {
    var f := TripOf(routes);
    var result: map<string, StagedTrip> := map[];
    assert rows[..|rows|] == rows;
    for i := 0 to |rows|
      invariant Collect(f, rows[..i]).Success? && result == Upsert(map[], Collect(f, rows[..i]).value)
    {
      CollectOne(f, rows, i);
      var trip := f(rows[i]);
      if trip.Failure? {
        CollectFailsEarly(f, rows, i + 1);
        return Failure;
      }
      if trip.value.Some? {
        UpsertOne(map[], Collect(f, rows[..i]).value, trip.value.value.0, trip.value.value.1);
        result := result[trip.value.value.0 := trip.value.value.1];
      }
    }
    return Success(result);
  }

  // ---------------------------------------------------------------- service dates

  ghost predicate Holds(active: map<string, set<Day>>, dates: set<(string, Day)>) {
    forall s, d :: (s, d) in dates <==> s in active && d in active[s]
  }

  function Add(active: map<string, set<Day>>, service: string, day: Day): map<string, set<Day>> {
    active[service := (if service in active then active[service] else {}) + {day}]
  }

  function Discard(active: map<string, set<Day>>, service: string, day: Day): map<string, set<Day>> {
    active[service := (if service in active then active[service] else {}) - {day}]
  }

  /** The dates of one range up to (not including) a day. */
  ghost function DatesBefore(r: Range, limit: Day): set<(string, Day)> {
    set d | r.start <= d < limit && d <= r.end && Covers(r, r.serviceId, d) :: (r.serviceId, d)
  }

  method AddRange(active: map<string, set<Day>>, r: Range, ghost dates: set<(string, Day)>)
      returns (active': map<string, set<Day>>)
    requires Holds(active, dates) && |r.weekdays| == 7 && r.start <= r.end
    ensures Holds(active', dates + RangeDates([r]))
  {
    active' := active;
    for offset := 0 to r.end - r.start + 1
      invariant Holds(active', dates + DatesBefore(r, r.start + offset))
    {
      var candidate := r.start + offset;
      if r.weekdays[Weekday(candidate)] {
        active' := Add(active', r.serviceId, candidate);
        assert Covers(r, r.serviceId, candidate);
      }
      assert forall p :: p in DatesBefore(r, candidate + 1) <==>
          p in DatesBefore(r, candidate) || (p == (r.serviceId, candidate) && Covers(r, r.serviceId, candidate));
    }
    assert r in [r];
    assert forall p :: p in DatesBefore(r, r.end + 1) <==> p in RangeDates([r]);
  }

  lemma RangeDatesConcat(a: seq<Range>, b: seq<Range>)
    ensures RangeDates(a + b) == RangeDates(a) + RangeDates(b)
  {
    assert forall r :: r in a + b <==> r in a || r in b;
    assert forall p :: p in RangeDates(a + b) <==> p in RangeDates(a) || p in RangeDates(b);
  }

  lemma RangeShape(row: Row)
    requires RangeOf(row).Success? && RangeOf(row).value.Some?
    ensures |RangeOf(row).value.value.weekdays| == 7 && RangeOf(row).value.value.start <= RangeOf(row).value.value.end
  {
  }

  /** The calendar.txt loop. */
  method ReadRanges(rows: seq<Row>) returns (r: Result<map<string, set<Day>>>)
    ensures r.Success? <==> Collect(RangeOf, rows).Success?
    ensures r.Success? ==> Holds(r.value, RangeDates(Collect(RangeOf, rows).value))
  {
    var active: map<string, set<Day>> := map[];
    assert rows[..|rows|] == rows;
    for i := 0 to |rows|
      invariant Collect(RangeOf, rows[..i]).Success?
      invariant Holds(active, RangeDates(Collect(RangeOf, rows[..i]).value))
    {
      CollectOne(RangeOf, rows, i);
      var range := RangeOf(rows[i]);
      if range.Failure? {
        CollectFailsEarly(RangeOf, rows, i + 1);
        return Failure;
      }
      if range.value.Some? {
        ghost var seen := Collect(RangeOf, rows[..i]).value;
        RangeShape(rows[i]);
        active := AddRange(active, range.value.value, RangeDates(seen));
        RangeDatesConcat(seen, [range.value.value]);
      }
    }
    return Success(active);
  }

  lemma ExceptionApplied(active: map<string, set<Day>>, dates: set<(string, Day)>,
                         exceptions: seq<((string, Day), bool)>, service: string, day: Day, added: bool)
    requires Holds(active, WithExceptions(dates, exceptions))
    ensures Holds(if added then Add(active, service, day) else Discard(active, service, day),
                  WithExceptions(dates, exceptions + [((service, day), added)]))
  {
    assert (exceptions + [((service, day), added)])[..|exceptions|] == exceptions;
  }

  /** The calendar_dates.txt loop, in file order. */
  method ReadExceptions(rows: seq<Row>, ranged: map<string, set<Day>>, ghost dates: set<(string, Day)>)
      returns (r: Result<map<string, set<Day>>>)
    requires Holds(ranged, dates)
    ensures r.Success? <==> Collect(ExceptionOf, rows).Success?
    ensures r.Success? ==> Holds(r.value, WithExceptions(dates, Collect(ExceptionOf, rows).value))
  {
    var active := ranged;
    assert rows[..|rows|] == rows;
    for i := 0 to |rows|
      invariant Collect(ExceptionOf, rows[..i]).Success?
      invariant Holds(active, WithExceptions(dates, Collect(ExceptionOf, rows[..i]).value))
    {
      CollectOne(ExceptionOf, rows, i);
      var exception := ExceptionOf(rows[i]);
      if exception.Failure? {
        CollectFailsEarly(ExceptionOf, rows, i + 1);
        return Failure;
      }
      if exception.value.Some? {
        var ((service, day), added) := exception.value.value;
        ExceptionApplied(active, dates, Collect(ExceptionOf, rows[..i]).value, service, day, added);
        active := if added then Add(active, service, day) else Discard(active, service, day);
      }
    }
    return Success(active);
  }

  method ListActive(active: map<string, set<Day>>, ghost dates: set<(string, Day)>) returns (listed: seq<(string, Day)>)
    requires Holds(active, dates)
    ensures Enumerates(listed, dates)
  {
    var pairs := set s, d | s in active && d in active[s] :: (s, d);
    forall s, d | (s, d) in dates ensures (s, d) in pairs {
      assert s in active && d in active[s];
    }
    assert forall p :: p in dates ==> (p.0, p.1) in pairs;
    forall p | p in pairs ensures p in dates {
      assert (p.0, p.1) in dates;
    }
    listed := ListSet(pairs);
  }

  /** _service_dates: weekday ranges first, then the exceptions, then every pair once. */
  method ReadServiceDates(archive: Archive) returns (r: Result<seq<(string, Day)>>)
    ensures r.Success? <==> ServiceDates(archive).Success?
    ensures r.Success? ==> Enumerates(r.value, ServiceDates(archive).value)
  {
    var ranged := ReadRanges(OptionalFile(archive.calendar));
    if ranged.Failure? {
      return Failure;
    }
    ghost var rangeDates := RangeDates(Collect(RangeOf, OptionalFile(archive.calendar)).value);
    var active := ReadExceptions(OptionalFile(archive.calendarDates), ranged.value, rangeDates);
    if active.Failure? {
      return Failure;
    }
    var listed := ListActive(active.value, ServiceDates(archive).value);
    return Success(listed);
  }

  // ---------------------------------------------------------------- the materialising importer

  /** parse_static_feed, with the service dates in whatever order the sets gave them. */
  method ParseStaticFeed(archive: Archive) returns (r: Result<(Feed, seq<(string, Day)>)>)
    ensures r.Success? <==> Parse(archive).Success?
    ensures r.Success? ==> r.value.0 == Parse(archive).value && Enumerates(r.value.1, r.value.0.serviceDates)
  {
    if archive.stops.None? || archive.trips.None? || archive.routes.None? || archive.stopTimes.None? {
      return Failure;
    }
    var stops := Collect(StopOf, archive.stops.value);
    var routes := Routes(archive.routes.value);
    if stops.Failure? || routes.Failure? {
      return Failure;
    }
    var trips := ReadTrips(archive.trips.value, routes.value);
    if trips.Failure? {
      return Failure;
    }
    var dates := ReadServiceDates(archive);
    if dates.Failure? {
      return Failure;
    }
    var departures := Collect(DepartureOf(trips.value), archive.stopTimes.value);
    if departures.Failure? {
      return Failure;
    }
    return Success((Feed(stops.value, Elements(dates.value), departures.value), dates.value));
  }

  function DateItems(slug: Slug, dates: seq<(string, Day)>): (r: seq<(ServiceDate, ())>)
    ensures |r| == |dates|
  {
    seq(|dates|, i requires 0 <= i < |dates| => (ServiceDate(slug, dates[i].0, dates[i].1), ()))
  }

  function DateKeys(dates: set<ServiceDate>): map<ServiceDate, ()> { map d | d in dates :: () }

  lemma DatesNeverConflict(slug: Slug, present: set<ServiceDate>, pairs: seq<(string, Day)>, dates: set<(string, Day)>)
    requires Enumerates(pairs, dates) && forall d :: d in present ==> d.slug != slug
    ensures InsertAll(DateKeys(present), DateItems(slug, pairs)).Success?
    ensures InsertAll(DateKeys(present), DateItems(slug, pairs)).value.Keys == present + DateRows(slug, dates)
  {
    var items := DateItems(slug, pairs);
    forall i, j | 0 <= i < j < |items| ensures items[i].0 != items[j].0 {
      assert pairs[i] != pairs[j];
    }
    InsertAllExactly(DateKeys(present), items);
    UpsertKeys(DateKeys(present), items);
    assert forall d :: d in KeysOf(items) <==> d in DateRows(slug, dates) by {
      forall d | d in KeysOf(items) ensures d in DateRows(slug, dates) {
        var i :| 0 <= i < |items| && items[i].0 == d;
        assert pairs[i] in dates;
      }
      forall d | d in DateRows(slug, dates) ensures d in KeysOf(items) {
        assert (d.serviceId, d.day) in pairs;
        var i :| 0 <= i < |pairs| && pairs[i] == (d.serviceId, d.day);
        assert items[i].0 == d;
      }
    }
  }

  /**
   * replace_static_feed: plain INSERTs after the DELETEs. It fails exactly when a primary key of
   * the feed repeats, a sequence number does not fit SQLite's INTEGER, or there are stops and their
   * provider has no row; otherwise it leaves the appended feed in place of the old one.
   */
  method ReplaceStaticFeed(connection: Connection, slug: Slug, feed: Feed, dates: seq<(string, Day)>) returns (ok: bool)
    requires Enumerates(dates, feed.serviceDates)
    modifies connection`tables
    ensures ok <==> KeysUnique(slug, feed) && Storable(feed.departures) &&
                    AcceptsStops(old(connection.tables), slug, |feed.stops|)
    ensures ok ==> connection.tables == Appended(Cleared(old(connection.tables), slug), slug, feed)
  {
    connection.DeleteProvider(slug);
    ghost var cleared := connection.tables;
    var stopItems, departureItems := StopItems(slug, feed.stops), DepartureItems(slug, feed.departures);
    StopKeysOwned(slug, feed);
    InsertAllExactly(cleared.stops, stopItems);
    InsertAllExactly(cleared.departures, departureItems);
    var stops := InsertAll(connection.tables.stops, stopItems);
    if stops.Failure? || !AcceptsStops(connection.tables, slug, |feed.stops|) {
      return false;
    }
    connection.tables := connection.tables.(stops := stops.value);
    DatesNeverConflict(slug, cleared.serviceDates, dates, feed.serviceDates);
    var inserted := InsertAll(DateKeys(connection.tables.serviceDates), DateItems(slug, dates));
    connection.tables := connection.tables.(serviceDates := inserted.value.Keys);
    if !Storable(feed.departures) {
      return false;
    }
    var departures := InsertAll(connection.tables.departures, departureItems);
    if departures.Failure? {
      return false;
    }
    connection.tables := connection.tables.(departures := departures.value);
    return true;
  }

  lemma StopKeysOwned(slug: Slug, feed: Feed)
    ensures forall k :: k in KeysOf(StopItems(slug, feed.stops)) ==> k.slug == slug
    ensures forall k :: k in KeysOf(DepartureItems(slug, feed.departures)) ==> k.slug == slug
  {
  }

  // ---------------------------------------------------------------- the streaming importer

  /** _insert_trip_batch. */
  method InsertTripBatch(connection: Connection, batch: seq<(string, StagedTrip)>,
                         ghost flushed: seq<(string, StagedTrip)>)
    requires connection.stagedTrips == Upsert(map[], flushed)
    modifies connection`stagedTrips
    ensures connection.stagedTrips == Upsert(map[], flushed + batch)
  {
    UpsertConcat(map[], flushed, batch);
    connection.stagedTrips := Upsert(connection.stagedTrips, batch);
  }

  lemma NothingStaged(f: Row -> Result<Option<(string, StagedTrip)>>, rows: seq<Row>)
    ensures Collect(f, rows[..0]) == Success([])
    ensures Upsert<string, StagedTrip>(map[], []) == map[]
  {
  }

  /** _stage_trips: DROP and CREATE the temporary table, then upsert batch after batch. */
  method StageTrips(connection: Connection, rows: seq<Row>, routes: map<string, string>, batchSize: nat)
      returns (ok: bool)
    requires batchSize > 0
    modifies connection`stagedTrips
    ensures ok <==> Trips(routes, rows).Success?
    ensures ok ==> connection.stagedTrips == Trips(routes, rows).value
  {
    hide Collect, Upsert;
    connection.stagedTrips := map[];
    var f := TripOf(routes);
    NothingStaged(f, rows);
    var batch: seq<(string, StagedTrip)> := [];
    ghost var flushed: seq<(string, StagedTrip)>, kept: seq<(string, StagedTrip)> := [], [];
    assert rows[..|rows|] == rows;
    for i := 0 to |rows|
      invariant Collect(f, rows[..i]) == Success(kept)
      invariant kept == flushed + batch
      invariant connection.stagedTrips == Upsert(map[], flushed)
    {
      CollectOne(f, rows, i);
      var trip := f(rows[i]);
      if trip.Failure? {
        CollectFailsEarly(f, rows, i + 1);
        return false;
      }
      if trip.value.Some? {
        kept := kept + [trip.value.value];
        batch := batch + [trip.value.value];
      }
      if |batch| >= batchSize {
        InsertTripBatch(connection, batch, flushed);
        flushed := flushed + batch;
        batch := [];
      }
    }
    if batch != [] {
      InsertTripBatch(connection, batch, flushed);
    } else {
      assert kept == flushed;
    }
    return true;
  }

  /** A usable stop_times.txt row before its trip is known. */
  datatype StopTime = StopTime(tripId: string, stopId: string, sequence: int, scheduledSeconds: int)

  /** _stop_time_item. */
  function StopTimeOf(row: Row): Result<Option<StopTime>> {
    var trip :- Stripped(row, "trip_id");
    var stop :- Stripped(row, "stop_id");
    var sequence := IntegerOrNone(Cell(row, "stop_sequence"));
    var seconds :- TimeSecondsOrNone(Cell(row, "departure_time"));
    if trip == "" || stop == "" || sequence.None? || seconds.None? then Success(None)
    else Success(Some(StopTime(trip, stop, sequence.value, seconds.value)))
  }

  /** The departures of the stop times whose trip is known. */
  function Resolved(trips: map<string, StagedTrip>, items: seq<StopTime>): seq<Departure> {
    if items == [] then []
    else
      var n := |items| - 1;
      var t := items[n];
      Resolved(trips, items[..n]) +
      if t.tripId in trips then
        [Departure(t.tripId, t.stopId, t.sequence, trips[t.tripId].serviceId, t.scheduledSeconds,
                   trips[t.tripId].routeName, trips[t.tripId].destination)]
      else []
  }

  lemma {:induction false} ResolvedConcat(trips: map<string, StagedTrip>, a: seq<StopTime>, b: seq<StopTime>)
    ensures Resolved(trips, a + b) == Resolved(trips, a) + Resolved(trips, b)
  {
    if b == [] {
      assert a + b == a;
    } else {
      var n := |b| - 1;
      assert (a + b)[..|a| + n] == a + b[..n];
      ResolvedConcat(trips, a, b[..n]);
    }
  }

  /** Looking up only the trips of the batch is enough. */
  lemma {:induction false} ResolvedByBatch(trips: map<string, StagedTrip>, found: map<string, StagedTrip>,
                                           items: seq<StopTime>)
    requires forall i :: 0 <= i < |items| ==>
               (items[i].tripId in found <==> items[i].tripId in trips) &&
               (items[i].tripId in found ==> found[items[i].tripId] == trips[items[i].tripId])
    ensures Resolved(found, items) == Resolved(trips, items)
  {
    if items != [] {
      ResolvedByBatch(trips, found, items[..|items| - 1]);
    }
  }

  function ResolvedOne(trips: map<string, StagedTrip>, t: StopTime): Option<Departure> {
    if t.tripId in trips then
      Some(Departure(t.tripId, t.stopId, t.sequence, trips[t.tripId].serviceId, t.scheduledSeconds,
                     trips[t.tripId].routeName, trips[t.tripId].destination))
    else None
  }

  /** On one row the two readers fail together and keep the same departure. */
  lemma RowReadersAgree(trips: map<string, StagedTrip>, row: Row)
    requires "" !in trips
    ensures StopTimeOf(row).Success? <==> DepartureOf(trips)(row).Success?
    ensures StopTimeOf(row).Success? ==>
              DepartureOf(trips)(row).value ==
              (match StopTimeOf(row).value case None => None case Some(t) => ResolvedOne(trips, t))
  {
    hide Strip, IntegerOrNone, TimeSecondsOrNone;
  }

  lemma ResolvedNext(trips: map<string, StagedTrip>, items: seq<StopTime>, t: StopTime)
    ensures Resolved(trips, items + [t]) ==
            Resolved(trips, items) + (match ResolvedOne(trips, t) case None => [] case Some(d) => [d])
  {
    assert (items + [t])[..|items|] == items;
  }

  /** Resolving after reading is reading with the trips at hand, because no trip has an empty id. */
  lemma {:induction false} ResolvedIsDepartures(trips: map<string, StagedTrip>, rows: seq<Row>)
    requires "" !in trips
    ensures Collect(StopTimeOf, rows).Success? <==> Collect(DepartureOf(trips), rows).Success?
    ensures Collect(StopTimeOf, rows).Success? ==>
              Collect(DepartureOf(trips), rows).value == Resolved(trips, Collect(StopTimeOf, rows).value)
  {
    hide StopTimeOf, DepartureOf, ResolvedOne;
    if rows != [] {
      var n := |rows| - 1;
      ResolvedIsDepartures(trips, rows[..n]);
      RowReadersAgree(trips, rows[n]);
      if Collect(StopTimeOf, rows[..n]).Success? && StopTimeOf(rows[n]).Success? && StopTimeOf(rows[n]).value.Some? {
        ResolvedNext(trips, Collect(StopTimeOf, rows[..n]).value, StopTimeOf(rows[n]).value.value);
      }
    }
  }

  lemma NoEmptyTripId(routes: map<string, string>, rows: seq<Row>)
    requires Trips(routes, rows).Success?
    ensures "" !in Trips(routes, rows).value
  {
    var items := Collect(TripOf(routes), rows).value;
    UpsertLookup(map[], items, "");
    if i :| 0 <= i < |items| && items[i].0 == "" {
      CollectedFrom(TripOf(routes), rows, items[i]);
    }
  }

  /** SQLite can hold the sequence numbers of the departures that the stop times make. */
  predicate Fits(trips: map<string, StagedTrip>, items: seq<StopTime>) { Storable(Resolved(trips, items)) }

  lemma DepartureItemsConcat(slug: Slug, a: seq<Departure>, b: seq<Departure>)
    ensures DepartureItems(slug, a + b) == DepartureItems(slug, a) + DepartureItems(slug, b)
  {
  }

  /** The departures table after the stop times have been resolved and upserted. */
  function WithDepartures(t: Tables, slug: Slug, trips: map<string, StagedTrip>, items: seq<StopTime>): Tables {
    t.(departures := Upsert(t.departures, DepartureItems(slug, Resolved(trips, items))))
  }

  /** _insert_departure_batch: one SELECT of the trips the batch names, then upserts. */
  method InsertDepartureBatch(connection: Connection, slug: Slug, batch: seq<StopTime>,
                              ghost before: Tables, ghost flushed: seq<StopTime>) returns (ok: bool)
    requires connection.tables == WithDepartures(before, slug, connection.stagedTrips, flushed)
    requires Fits(connection.stagedTrips, flushed)
    modifies connection`tables
    ensures ok <==> Fits(connection.stagedTrips, flushed + batch)
    ensures ok ==> connection.tables == WithDepartures(before, slug, connection.stagedTrips, flushed + batch)
  {
    FlushExtends(before, slug, connection.stagedTrips, flushed, batch);
    var tripIds := set i | 0 <= i < |batch| :: batch[i].tripId;
    var trips := map id | id in tripIds && id in connection.stagedTrips :: connection.stagedTrips[id];
    ResolvedByBatch(connection.stagedTrips, trips, batch);
    var departures := Resolved(trips, batch);
    if !Storable(departures) {
      return false;
    }
    connection.tables := connection.tables.(departures :=
      Upsert(connection.tables.departures, DepartureItems(slug, departures)));
    return true;
  }

  lemma NothingRead(f: Row -> Result<Option<StopTime>>, rows: seq<Row>, t: Tables, slug: Slug,
                    trips: map<string, StagedTrip>)
    ensures Collect(f, rows[..0]) == Success([])
    ensures Fits(trips, []) && WithDepartures(t, slug, trips, []) == t
  {
    assert DepartureItems(slug, []) == [];
  }

  /** _insert_departures; f is the row reader _stop_time_item. */
  method InsertDepartures(connection: Connection, slug: Slug, rows: seq<Row>, f: Row -> Result<Option<StopTime>>,
                          batchSize: nat) returns (ok: bool)
    requires batchSize > 0
    modifies connection`tables
    ensures ok <==> Collect(f, rows).Success? &&
                    Fits(connection.stagedTrips, Collect(f, rows).value)
    ensures ok ==> connection.tables ==
                   WithDepartures(old(connection.tables), slug, connection.stagedTrips, Collect(f, rows).value)
  {
    hide WithDepartures, Fits, Collect;
    ghost var before := connection.tables;
    var batch: seq<StopTime> := [];
    ghost var flushed: seq<StopTime>, kept: seq<StopTime> := [], [];
    NothingRead(f, rows, before, slug, connection.stagedTrips);
    assert rows[..|rows|] == rows;
    for i := 0 to |rows|
      invariant Collect(f, rows[..i]) == Success(kept)
      invariant kept == flushed + batch
      invariant Fits(connection.stagedTrips, flushed)
      invariant connection.tables == WithDepartures(before, slug, connection.stagedTrips, flushed)
    {
      CollectOne(f, rows, i);
      var item := f(rows[i]);
      if item.Failure? {
        CollectFailsEarly(f, rows, i + 1);
        return false;
      }
      if item.value.Some? {
        kept := kept + [item.value.value];
        batch := batch + [item.value.value];
      }
      if |batch| >= batchSize {
        ok := InsertDepartureBatch(connection, slug, batch, before, flushed);
        if !ok {
          assert kept == flushed + batch;
          UnfitStaysUnfit(f, connection.stagedTrips, rows, i + 1);
          return false;
        }
        flushed := flushed + batch;
        batch := [];
      }
    }
    ok := true;
    if batch != [] {
      ok := InsertDepartureBatch(connection, slug, batch, before, flushed);
    } else {
      assert kept == flushed;
    }
  }

  /** One more flush continues the same run of upserts. */
  lemma FlushExtends(t: Tables, slug: Slug, trips: map<string, StagedTrip>, flushed: seq<StopTime>,
                     batch: seq<StopTime>)
    ensures WithDepartures(t, slug, trips, flushed + batch) ==
            WithDepartures(WithDepartures(t, slug, trips, flushed), slug, trips, batch)
    ensures Fits(trips, flushed + batch) <==> Fits(trips, flushed) && Fits(trips, batch)
  {
    ResolvedConcat(trips, flushed, batch);
    var a, b := Resolved(trips, flushed), Resolved(trips, batch);
    DepartureItemsConcat(slug, a, b);
    UpsertConcat(t.departures, DepartureItems(slug, a), DepartureItems(slug, b));
    StorableConcat(a, b);
  }

  lemma StorableConcat(a: seq<Departure>, b: seq<Departure>)
    ensures Storable(a + b) <==> Storable(a) && Storable(b)
  {
    if Storable(a + b) {
      assert forall i :: 0 <= i < |a| ==> a[i] == (a + b)[i];
      assert forall i :: 0 <= i < |b| ==> b[i] == (a + b)[|a| + i];
    }
  }

  lemma {:induction false} CollectExtends(f: Row -> Result<Option<StopTime>>, rows: seq<Row>, i: nat)
      returns (rest: seq<StopTime>)
    requires i <= |rows| && Collect(f, rows).Success?
    ensures Collect(f, rows[..i]).Success?
    ensures Collect(f, rows).value == Collect(f, rows[..i]).value + rest
  {
    if i == |rows| {
      assert rows[..i] == rows;
      rest := [];
    } else {
      var n := |rows| - 1;
      assert rows[..n][..i] == rows[..i];
      var shorter := CollectExtends(f, rows[..n], i);
      var last := f(rows[n]).value;
      rest := if last.Some? then shorter + [last.value] else shorter;
    }
  }

  lemma UnfitStaysUnfit(f: Row -> Result<Option<StopTime>>, trips: map<string, StagedTrip>, rows: seq<Row>, i: nat)
    requires i <= |rows| && Collect(f, rows[..i]).Success?
    requires !Fits(trips, Collect(f, rows[..i]).value)
    ensures !(Collect(f, rows).Success? && Fits(trips, Collect(f, rows).value))
  {
    if Collect(f, rows).Success? {
      var rest := CollectExtends(f, rows, i);
      var init := Collect(f, rows[..i]).value;
      ResolvedConcat(trips, init, rest);
      StorableConcat(Resolved(trips, init), Resolved(trips, rest));
    }
  }

  /** What an archive can be appended: it parses, and SQLite can hold its sequence numbers. */
  predicate Importable(archive: Archive) { Parse(archive).Success? && Storable(Parse(archive).value.departures) }

  /** And the database may take it: its stops need the provider's row. */
  predicate Accepts(t: Tables, slug: Slug, archive: Archive) {
    Importable(archive) && AcceptsStops(t, slug, |Parse(archive).value.stops|)
  }

  /**
   * append_static_feed_from_payload refines the materialising reader: for every archive and batch
   * size it succeeds exactly on the importable archives that the database accepts, and then leaves the
   * last-row-wins upsert of what the materialising reader parses.
   */
  method AppendStaticFeedFromPayload(connection: Connection, slug: Slug, archive: Archive, batchSize: nat)
      returns (ok: bool)
    requires batchSize > 0
    modifies connection
    ensures ok <==> Accepts(old(connection.tables), slug, archive)
    ensures ok ==> connection.tables == Appended(old(connection.tables), slug, Parse(archive).value)
  {
    if archive.routes.None? {
      return false;
    }
    var routes := Routes(archive.routes.value);
    if routes.Failure? || archive.trips.None? {
      return false;
    }
    ok := StageTrips(connection, archive.trips.value, routes.value, batchSize);
    if !ok || archive.stops.None? {
      return false;
    }
    var stops := Collect(StopOf, archive.stops.value);
    if stops.Failure? {
      return false;
    }
    var dates := ReadServiceDates(archive);
    if dates.Failure? || !AcceptsStops(connection.tables, slug, |stops.value|) {
      return false;
    }
    connection.tables := connection.tables.(stops := Upsert(connection.tables.stops, StopItems(slug, stops.value)));
    connection.tables := connection.tables.(serviceDates :=
      connection.tables.serviceDates + DateRows(slug, Elements(dates.value)));
    assert Elements(dates.value) == ServiceDates(archive).value;
    if archive.stopTimes.None? {
      return false;
    }
    NoEmptyTripId(routes.value, archive.trips.value);
    ResolvedIsDepartures(connection.stagedTrips, archive.stopTimes.value);
    ok := InsertDepartures(connection, slug, archive.stopTimes.value, StopTimeOf, batchSize);
  }

  /** replace_static_feed_from_payload. */
  method ReplaceStaticFeedFromPayload(connection: Connection, slug: Slug, archive: Archive, batchSize: nat)
      returns (ok: bool)
    requires batchSize > 0
    modifies connection
    ensures ok <==> Accepts(old(connection.tables), slug, archive)
    ensures ok ==> connection.tables == Appended(Cleared(old(connection.tables), slug), slug, Parse(archive).value)
  {
    connection.DeleteProvider(slug);
    ok := AppendStaticFeedFromPayload(connection, slug, archive, batchSize);
  }

  /**
   * The two importers side by side on equal databases: the streaming one accepts every importable
   * archive whose stops have their provider's row; the materialising one also needs unrepeated keys; and
   * whenever both accept, for any batch size, they leave the same tables.
   */
  method BothImporters(tables: Tables, slug: Slug, archive: Archive, batchSize: nat)
      returns (streamed: Result<Tables>, materialised: Result<Tables>)
    requires batchSize > 0
    ensures streamed.Success? <==> Accepts(tables, slug, archive)
    ensures materialised.Success? <==> Accepts(tables, slug, archive) && KeysUnique(slug, Parse(archive).value)
    ensures materialised.Success? ==> streamed == materialised
  {
    hide Parse, KeysUnique, Appended, Storable, Cleared;
    var first := new Connection(tables);
    var ok := ReplaceStaticFeedFromPayload(first, slug, archive, batchSize);
    streamed := if ok then Success(first.tables) else Failure;
    materialised := Failure;
    var parsed := ParseStaticFeed(archive);
    if parsed.Success? {
      var second := new Connection(tables);
      ok := ReplaceStaticFeed(second, slug, parsed.value.0, parsed.value.1);
      materialised := if ok then Success(second.tables) else Failure;
    }
  }

  /** Last row wins: an imported departure row is the feed's last one with its key; other keys keep their rows. */
  lemma LastRowWins(t: Tables, slug: Slug, feed: Feed, k: DepartureKey)
    ensures var after := Appended(t, slug, feed).departures;
      var last := LastValue(DepartureItems(slug, feed.departures), k);
      (k in after <==> k in t.departures || last.Some?) &&
      (last.Some? ==> after[k] == last.value) &&
      (last.None? && k in t.departures ==> after[k] == t.departures[k])
  {
    UpsertLookup(t.departures, DepartureItems(slug, feed.departures), k);
  }

  // ---------------------------------------------------------------- several archives

  /** The rows one feed makes on its own. */
  function FeedRows(slug: Slug, feed: Feed): StaticRows {
    StaticRows(Upsert(map[], StopItems(slug, feed.stops)), DateRows(slug, feed.serviceDates),
               Upsert(map[], DepartureItems(slug, feed.departures)))
  }

  /** Right-biased merge of stops and departures, union of service dates. */
  function Merge(a: StaticRows, b: StaticRows): StaticRows {
    StaticRows(a.stops + b.stops, a.serviceDates + b.serviceDates, a.departures + b.departures)
  }

  /** Later feeds win. */
  function MergedRows(slug: Slug, feeds: seq<Feed>): StaticRows {
    if feeds == [] then StaticRows(map[], {}, map[])
    else
      var n := |feeds| - 1;
      Merge(MergedRows(slug, feeds[..n]), FeedRows(slug, feeds[n]))
  }

  function StaticTablesOf(t: Tables): StaticRows { StaticRows(t.stops, t.serviceDates, t.departures) }

  lemma AppendedIsMerge(t: Tables, slug: Slug, feed: Feed)
    ensures StaticTablesOf(Appended(t, slug, feed)) == Merge(StaticTablesOf(t), FeedRows(slug, feed))
  {
    UpsertIsMerge(t.stops, StopItems(slug, feed.stops));
    UpsertIsMerge(t.departures, DepartureItems(slug, feed.departures));
  }

  ghost predicate AllImportable(downloads: seq<Option<Archive>>) {
    forall i :: 0 <= i < |downloads| ==> downloads[i].Some? && Importable(downloads[i].value)
  }

  /** Each archive parsed on its own: its stop times meet only its own trips. */
  function Feeds(downloads: seq<Option<Archive>>): (r: seq<Feed>)
    requires AllImportable(downloads)
    ensures |r| == |downloads|
  {
    seq(|downloads|, i requires 0 <= i < |downloads| => Parse(downloads[i].value).value)
  }

  function WithStatic(t: Tables, rows: StaticRows): Tables {
    t.(stops := rows.stops, serviceDates := rows.serviceDates, departures := rows.departures)
  }

  /** The database a worker publishes: one provider, its merged feeds, no overlay. */
  function StagedDatabase(slug: Slug, city: string, feeds: seq<Feed>): Tables {
    WithStatic(EMPTY_TABLES.(providers := map[slug := ProviderRow(city, Never, Never)]), MergedRows(slug, feeds))
  }

  lemma FeedRowsOwned(slug: Slug, feed: Feed)
    ensures StaticRowsOf(FeedRows(slug, feed), slug)
  {
    UpsertKeys(map[], StopItems(slug, feed.stops));
    UpsertKeys(map[], DepartureItems(slug, feed.departures));
    StopKeysOwned(slug, feed);
  }

  lemma {:induction false} MergedRowsOwned(slug: Slug, feeds: seq<Feed>)
    ensures StaticRowsOf(MergedRows(slug, feeds), slug)
  {
    hide FeedRows;
    if feeds != [] {
      MergedRowsOwned(slug, feeds[..|feeds| - 1]);
      FeedRowsOwned(slug, feeds[|feeds| - 1]);
    }
  }

  /** All that a staged database holds is its provider's merged feeds. */
  lemma StagedRows(slug: Slug, city: string, feeds: seq<Feed>)
    ensures StaticOf(StagedDatabase(slug, city, feeds), slug) == MergedRows(slug, feeds)
  {
    hide MergedRows;
    MergedRowsOwned(slug, feeds);
    var rows := MergedRows(slug, feeds);
    var own := StaticOf(StagedDatabase(slug, city, feeds), slug);
    assert own.stops == rows.stops;
    assert own.serviceDates == rows.serviceDates;
    assert own.departures == rows.departures;
  }

  lemma NothingToClear(t: Tables, slug: Slug)
    requires t.stops == map[] && t.serviceDates == {} && t.departures == map[]
    requires t.delays == map[] && t.cancellations == {} && t.skips == {}
    ensures Cleared(t, slug) == t
  {
  }

  lemma MergedNext(slug: Slug, city: string, feeds: seq<Feed>, feed: Feed)
    ensures StagedDatabase(slug, city, feeds + [feed]) == Appended(StagedDatabase(slug, city, feeds), slug, feed)
  {
    assert (feeds + [feed])[..|feeds|] == feeds;
    AppendedIsMerge(StagedDatabase(slug, city, feeds), slug, feed);
  }

  lemma EmptyStaged(slug: Slug, city: string)
    ensures StagedDatabase(slug, city, []) == EMPTY_TABLES.(providers := map[slug := ProviderRow(city, Never, Never)])
  {
  }

  /** One archive of a build: the first one replaces, the others append. */
  method ImportArchive(connection: Connection, slug: Slug, city: string, download: Option<Archive>, batchSize: nat,
                       first: bool, ghost feeds: seq<Feed>) returns (ok: bool)
    requires batchSize > 0
    requires connection.tables == StagedDatabase(slug, city, feeds) && (first <==> feeds == [])
    modifies connection
    ensures ok <==> download.Some? && Importable(download.value)
    ensures ok ==> connection.tables == StagedDatabase(slug, city, feeds + [Parse(download.value).value])
  {
    if download.None? {
      return false;
    }
    if first {
      NothingToClear(connection.tables, slug);
      ok := ReplaceStaticFeedFromPayload(connection, slug, download.value, batchSize);
    } else {
      ok := AppendStaticFeedFromPayload(connection, slug, download.value, batchSize);
    }
    if ok {
      MergedNext(slug, city, feeds, Parse(download.value).value);
    }
  }

  /**
   * _build_static_database on a fresh database. No URL, a failed download or an archive that cannot
   * be imported fails the whole build.
   */
  method BuildStaticDatabase(slug: Slug, city: string, downloads: seq<Option<Archive>>, batchSize: nat)
      returns (r: Result<Tables>)
    requires batchSize > 0
    ensures r.Success? <==> downloads != [] && AllImportable(downloads)
    ensures r.Success? ==> r.value == StagedDatabase(slug, city, Feeds(downloads))
  {
    hide Parse, Storable, StagedDatabase;
    if downloads == [] {
      return Failure;
    }
    EmptyStaged(slug, city);
    var connection := new Connection(EMPTY_TABLES.(providers := map[slug := ProviderRow(city, Never, Never)]));
    ghost var feeds: seq<Feed> := [];
    for index := 0 to |downloads|
      invariant AllImportable(downloads[..index]) && feeds == Feeds(downloads[..index])
      invariant connection.tables == StagedDatabase(slug, city, feeds)
    {
      var ok := ImportArchive(connection, slug, city, downloads[index], batchSize, index == 0, feeds);
      if !ok {
        return Failure;
      }
      feeds := feeds + [Parse(downloads[index].value).value];
    }
    assert downloads[..|downloads|] == downloads;
    return Success(connection.tables);
  }

  /** Every departure of a merged schedule is one of some feed's, and no later feed has its key. */
  lemma {:induction false} MergedDepartureSource(slug: Slug, feeds: seq<Feed>, k: DepartureKey)
      returns (i: nat, d: Departure)
    requires k in MergedRows(slug, feeds).departures
    ensures i < |feeds| && d in feeds[i].departures
    ensures DepartureItem(slug, d) == (k, MergedRows(slug, feeds).departures[k])
    ensures forall j :: i < j < |feeds| ==> k !in FeedRows(slug, feeds[j]).departures
  {
    hide DateRows, StopItems, Upsert;
    var n := |feeds| - 1;
    var items := DepartureItems(slug, feeds[n].departures);
    if k in FeedRows(slug, feeds[n]).departures {
      UpsertLookup(map[], items, k);
      i, d := n, feeds[n].departures[LastIndex(items, k)];
    } else {
      i, d := MergedDepartureSource(slug, feeds[..n], k);
    }
  }

  /** Imported schedules respect the 48-hour cap. */
  lemma ImportedTimes(slug: Slug, downloads: seq<Option<Archive>>, k: DepartureKey)
    requires AllImportable(downloads)
    requires k in MergedRows(slug, Feeds(downloads)).departures
    ensures 0 <= MergedRows(slug, Feeds(downloads)).departures[k].scheduledSeconds < TIME_LIMIT
  {
    var i, d := MergedDepartureSource(slug, Feeds(downloads), k);
    ParsedTimes(downloads[i].value, d);
  }

  lemma MergeCommutes<K, V>(m: map<K, V>, a: map<K, V>, b: map<K, V>)
    requires a.Keys !! b.Keys
    ensures m + a + b == m + b + a
  {
  }

  /** Feeds whose stop and departure keys are disjoint can be merged in either order. */
  lemma DisjointFeedsCommute(slug: Slug, before: StaticRows, a: Feed, b: Feed)
    requires FeedRows(slug, a).stops.Keys !! FeedRows(slug, b).stops.Keys
    requires FeedRows(slug, a).departures.Keys !! FeedRows(slug, b).departures.Keys
    ensures Merge(Merge(before, FeedRows(slug, a)), FeedRows(slug, b)) ==
            Merge(Merge(before, FeedRows(slug, b)), FeedRows(slug, a))
  {
    var x, y := FeedRows(slug, a), FeedRows(slug, b);
    MergeCommutes(before.stops, x.stops, y.stops);
    MergeCommutes(before.departures, x.departures, y.departures);
  }
}
