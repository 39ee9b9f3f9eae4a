/**
 * The realtime overlay of app/repositories/gtfs_realtime.py: absolute predictions become delays
 * against the nearest scheduled occurrence, and the overlay replaces the provider's rows.
 */
module Realtime {
  import opened Prelude
  import opened Calendar
  import opened Schema
  import opened Observations

  // ---------------------------------------------------------------- local time

  /**
   * The Warsaw time zone as two offset functions: seconds east of UTC at an instant, and at a wall
   * clock reading (an ambiguous or missing one is read as Python does with fold=0).
   */
  datatype Zone = Zone(atInstant: int -> int, atWall: int -> int)

  /** Seconds of a wall clock since 1970-01-01 00:00 on that clock. */
  function Wall(day: Day, seconds: int): int { (day - EPOCH_DAY) * SECONDS_PER_DAY + seconds }

  /** datetime.fromtimestamp(instant, zone).date(). */
  function LocalDay(zone: Zone, instant: int): Day {
    EPOCH_DAY + (instant + zone.atInstant(instant)) / SECONDS_PER_DAY
  }

  /** _scheduled_timestamp: midnight of the service date plus the seconds, on the wall clock. */
  function ScheduledTimestamp(zone: Zone, day: Day, seconds: int): int {
    Wall(day, seconds) - zone.atWall(Wall(day, seconds))
  }

  // ---------------------------------------------------------------- the joined rows

  /** One row of departures joined with service_dates. */
  datatype Occurrence = Occurrence(tripId: string, stopId: string, sequence: int, scheduledSeconds: int, day: Day)

  function KeyOf(o: Occurrence): Key { Key(o.tripId, o.sequence) }

  function TimeOf(zone: Zone, o: Occurrence): int { ScheduledTimestamp(zone, o.day, o.scheduledSeconds) }

  /** sd.service_date BETWEEN low AND high, on the ISO texts. */
  predicate DateBetween(day: Day, low: Day, high: Day)
    requires 1 <= low <= MAX_DAY && 1 <= high <= MAX_DAY
  {
    1 <= day <= MAX_DAY && TextBetween(Iso(day), Iso(low), Iso(high))
  }

  /** The SELECT of one batch of trips. */
  function Occurrences(t: Tables, slug: Slug, trips: set<string>, low: Day, high: Day): set<Occurrence>
    requires 1 <= low <= MAX_DAY && 1 <= high <= MAX_DAY
  {
    set k, d | k in t.departures && d in t.serviceDates &&
               k.slug == slug && d.slug == slug && d.serviceId == t.departures[k].serviceId &&
               k.tripId in trips && DateBetween(d.day, low, high)
            :: Occurrence(k.tripId, k.stopId, k.sequence, t.departures[k].scheduledSeconds, d.day)
  }

  /** o is an occurrence of the provider's schedule. */
  ghost predicate IsScheduled(t: Tables, slug: Slug, o: Occurrence) {
    var k := DepartureKey(slug, o.tripId, o.stopId, o.sequence);
    k in t.departures && t.departures[k].scheduledSeconds == o.scheduledSeconds &&
    ServiceDate(slug, t.departures[k].serviceId, o.day) in t.serviceDates
  }

  lemma OccurrenceMeaning(t: Tables, slug: Slug, trips: set<string>, low: Day, high: Day, o: Occurrence)
    requires 1 <= low <= MAX_DAY && 1 <= high <= MAX_DAY
    ensures o in Occurrences(t, slug, trips, low, high) <==>
            IsScheduled(t, slug, o) && o.tripId in trips && low <= o.day <= high
  {
    if 1 <= o.day <= MAX_DAY { BetweenIsInterval(o.day, low, high); }
    var k := DepartureKey(slug, o.tripId, o.stopId, o.sequence);
    if IsScheduled(t, slug, o) && o.tripId in trips && low <= o.day <= high {
      var d := ServiceDate(slug, t.departures[k].serviceId, o.day);
      assert k in t.departures && d in t.serviceDates;
    }
    if o in Occurrences(t, slug, trips, low, high) {
      var k', d :| k' in t.departures && d in t.serviceDates &&
        k'.slug == slug && d.slug == slug && d.serviceId == t.departures[k'].serviceId &&
        k'.tripId in trips && DateBetween(d.day, low, high) &&
        o == Occurrence(k'.tripId, k'.stopId, k'.sequence, t.departures[k'].scheduledSeconds, d.day);
      assert k' == k && d == ServiceDate(slug, t.departures[k].serviceId, o.day);
    }
  }

  /** Reading the rows of one batch: SQL promises no order. */
  method SelectOccurrences(t: Tables, slug: Slug, trips: set<string>, low: Day, high: Day)
      returns (rows: seq<Occurrence>)
    requires 1 <= low <= MAX_DAY && 1 <= high <= MAX_DAY
    ensures Enumerates(rows, Occurrences(t, slug, trips, low, high))
  {
    rows := ListSet(Occurrences(t, slug, trips, low, high));
  }

  // ---------------------------------------------------------------- the search

  type Candidates = map<Key, (nat, int)>

  function Distance(zone: Zone, estimated: map<Key, int>, o: Occurrence): nat
    requires KeyOf(o) in estimated
  {
    Abs(estimated[KeyOf(o)] - TimeOf(zone, o))
  }

  /** The row loop: keep a row when its key is predicted and it is strictly closer. */
  function Consider(zone: Zone, estimated: map<Key, int>, candidates: Candidates, o: Occurrence): Candidates {
    if KeyOf(o) !in estimated then candidates
    else
      var distance := Distance(zone, estimated, o);
      if KeyOf(o) !in candidates || distance < candidates[KeyOf(o)].0
      then candidates[KeyOf(o) := (distance, TimeOf(zone, o))]
      else candidates
  }

  function Scan(zone: Zone, estimated: map<Key, int>, candidates: Candidates, rows: seq<Occurrence>): Candidates {
    if rows == [] then candidates
    else Consider(zone, estimated, Scan(zone, estimated, candidates, rows[..|rows| - 1]), rows[|rows| - 1])
  }

  /** o is as close to its prediction as any occurrence of the same key in seen. */
  ghost predicate IsNearest(zone: Zone, estimated: map<Key, int>, seen: iset<Occurrence>, o: Occurrence) {
    o in seen && KeyOf(o) in estimated &&
    forall p :: p in seen && KeyOf(p) == KeyOf(o) ==> Distance(zone, estimated, o) <= Distance(zone, estimated, p)
  }

  /** The candidates are nearest occurrences, one for each predicted key that has any. */
  ghost predicate AreNearest(zone: Zone, estimated: map<Key, int>, seen: iset<Occurrence>, candidates: Candidates) {
    (forall o :: o in seen && KeyOf(o) in estimated ==> KeyOf(o) in candidates) &&
    forall k :: k in candidates ==>
      exists o :: IsNearest(zone, estimated, seen, o) && KeyOf(o) == k &&
        candidates[k] == (Distance(zone, estimated, o), TimeOf(zone, o))
  }

  lemma ConsiderKeepsNearest(zone: Zone, estimated: map<Key, int>, seen: iset<Occurrence>, candidates: Candidates,
                             o: Occurrence)
    requires AreNearest(zone, estimated, seen, candidates)
    ensures AreNearest(zone, estimated, seen + iset{o}, Consider(zone, estimated, candidates, o))
  {
    hide TimeOf;
    var after := Consider(zone, estimated, candidates, o);
    var more := seen + iset{o};
    forall k | k in after
      ensures exists w :: IsNearest(zone, estimated, more, w) && KeyOf(w) == k &&
                after[k] == (Distance(zone, estimated, w), TimeOf(zone, w))
    {
      if k in candidates {
        var w :| IsNearest(zone, estimated, seen, w) && KeyOf(w) == k &&
          candidates[k] == (Distance(zone, estimated, w), TimeOf(zone, w));
        if after[k] == candidates[k] {
          assert IsNearest(zone, estimated, more, w);
        } else {
          assert IsNearest(zone, estimated, more, o);
        }
      } else {
        assert KeyOf(o) == k;
        assert IsNearest(zone, estimated, more, o);
      }
    }
  }

  function Rows(rows: seq<Occurrence>): iset<Occurrence> { iset o | o in rows }

  lemma {:induction false} ScanKeepsNearest(zone: Zone, estimated: map<Key, int>, seen: iset<Occurrence>,
                                            candidates: Candidates, rows: seq<Occurrence>)
    requires AreNearest(zone, estimated, seen, candidates)
    ensures AreNearest(zone, estimated, seen + Rows(rows), Scan(zone, estimated, candidates, rows))
  {
    if rows == [] {
      assert seen + Rows(rows) == seen;
    } else {
      var n := |rows| - 1;
      ScanKeepsNearest(zone, estimated, seen, candidates, rows[..n]);
      ConsiderKeepsNearest(zone, estimated, seen + Rows(rows[..n]), Scan(zone, estimated, candidates, rows[..n]),
                           rows[n]);
      assert seen + Rows(rows[..n]) + iset{rows[n]} == seen + Rows(rows) by {
        assert rows == rows[..n] + [rows[n]];
      }
    }
  }

  // ---------------------------------------------------------------- the window of service dates

  /** The interpreter can name the local dates of all predictions, and the days around them. */
  ghost predicate Representable(zone: Zone, estimated: map<Key, int>) {
    forall k :: k in estimated ==> 2 <= LocalDay(zone, estimated[k]) <= MAX_DAY - 1
  }

  /** From the day before the earliest prediction to the day after the latest. */
  ghost predicate InReach(zone: Zone, estimated: map<Key, int>, day: Day) {
    (exists k :: k in estimated && LocalDay(zone, estimated[k]) - 1 <= day) &&
    (exists k :: k in estimated && day <= LocalDay(zone, estimated[k]) + 1)
  }

  /** The occurrences that a refresh with these predictions can choose from. */
  ghost function Reach(t: Tables, slug: Slug, zone: Zone, estimated: map<Key, int>): iset<Occurrence> {
    iset o | IsScheduled(t, slug, o) && InReach(zone, estimated, o.day)
  }

  /** min and max of the local dates, widened by one day on each side. */
  method Window(zone: Zone, estimated: map<Key, int>) returns (r: Result<(Day, Day)>)
    requires estimated != map[]
    ensures r.Success? <==> Representable(zone, estimated)
    ensures r.Success? ==> 1 <= r.value.0 <= r.value.1 <= MAX_DAY
    ensures r.Success? ==> forall day :: r.value.0 <= day <= r.value.1 <==> InReach(zone, estimated, day)
  {
    var keys := ListSet(estimated.Keys);
    assert keys != [] by {
      var k :| k in estimated;
      assert k in keys;
    }
    var first := LocalDay(zone, estimated[keys[0]]);
    var earliest, latest := first, first;
    ghost var low, high := keys[0], keys[0];
    for i := 0 to |keys|
      invariant forall j :: 0 <= j < i ==> 2 <= LocalDay(zone, estimated[keys[j]]) <= MAX_DAY - 1
      invariant forall j :: 0 <= j < i ==> earliest <= LocalDay(zone, estimated[keys[j]]) <= latest
      invariant low in keys && LocalDay(zone, estimated[low]) == earliest
      invariant high in keys && LocalDay(zone, estimated[high]) == latest
      invariant earliest <= latest
    {
      var day := LocalDay(zone, estimated[keys[i]]);
      if !(2 <= day <= MAX_DAY - 1) {
        assert keys[i] in estimated;
        return Failure;
      }
      if day < earliest { earliest, low := day, keys[i]; }
      if latest < day { latest, high := day, keys[i]; }
    }
    assert forall k :: k in estimated ==> earliest <= LocalDay(zone, estimated[k]) <= latest by {
      forall k | k in estimated ensures earliest <= LocalDay(zone, estimated[k]) <= latest {
        assert k in keys;
      }
    }
    assert low in estimated && high in estimated;
    return Success((earliest - 1, latest + 1));
  }

  // ---------------------------------------------------------------- batches of trip ids

  /** _batches: slices of a fixed size, the last one shorter. */
  function Batches(values: seq<string>, size: nat): seq<seq<string>>
    requires size > 0
  {
    if values == [] then []
    else if |values| <= size then [values]
    else [values[..size]] + Batches(values[size..], size)
  }

  ghost predicate Disjoint(pieces: seq<seq<string>>) {
    forall i, j, trip :: 0 <= i < j < |pieces| && trip in pieces[i] ==> trip !in pieces[j]
  }

  function Whole(piece: seq<string>): seq<string> { piece }

  lemma LongBatches(values: seq<string>, size: nat)
    requires size > 0 && |values| > size
    ensures Batches(values, size) == [values[..size]] + Batches(values[size..], size)
  {
  }

  /** The batches are the trips cut into consecutive pieces. */
  lemma {:induction false} BatchesCut(values: seq<string>, size: nat)
    requires size > 0
    ensures FlatMap(Whole, Batches(values, size)) == values
  {
    if |values| <= size {
      FlatMapOne(Whole, values);
    } else {
      LongBatches(values, size);
      hide FlatMap, Batches;
      var head, tail := values[..size], values[size..];
      BatchesCut(tail, size);
      FlatMapConcat(Whole, [head], Batches(tail, size));
      FlatMapOne(Whole, head);
    }
  }

  lemma {:induction false} BatchSizes(values: seq<string>, size: nat)
    requires size > 0
    ensures forall b :: b in Batches(values, size) ==> 0 < |b| <= size
  {
    if |values| > size {
      BatchSizes(values[size..], size);
    }
  }

  lemma BatchesCover(values: seq<string>, size: nat, trip: string)
    requires size > 0
    ensures trip in values <==> exists i :: 0 <= i < |Batches(values, size)| && trip in Batches(values, size)[i]
  {
    var batches := Batches(values, size);
    BatchesCut(values, size);
    FlatMapMember(Whole, batches, trip);
    assert forall i :: 0 <= i < |batches| ==> Whole(batches[i]) == batches[i];
  }

  lemma HeadIsNotInTail(values: seq<string>, size: nat, trip: string)
    requires Distinct(values) && size <= |values| && trip in values[..size]
    ensures trip !in values[size..]
  {
    var h :| 0 <= h < size && values[..size][h] == trip;
    forall m | 0 <= m < |values| - size ensures values[size..][m] != trip {
      assert values[h] != values[size + m];
    }
  }

  /** No trip, so no key, is split over two batches. */
  lemma {:induction false} BatchesPartition(values: seq<string>, size: nat)
    requires size > 0 && Distinct(values)
    ensures Disjoint(Batches(values, size))
  {
    if |values| > size {
      LongBatches(values, size);
      hide Batches;
      var head, tail := values[..size], values[size..];
      var rest := Batches(tail, size);
      assert Distinct(tail) by {
        assert forall i :: 0 <= i < |tail| ==> tail[i] == values[size + i];
      }
      BatchesPartition(tail, size);
      forall j, trip | 0 <= j < |rest| && trip in head ensures trip !in rest[j] {
        HeadIsNotInTail(values, size, trip);
        BatchesCover(tail, size, trip);
      }
      var all := [head] + rest;
      assert forall j :: 0 < j < |all| ==> all[j] == rest[j - 1];
    }
  }

  // ---------------------------------------------------------------- delays from absolute times

  /**
   * Each predicted key with an occurrence in reach gets its prediction minus the scheduled time of
   * a nearest such occurrence; no other key gets anything.
   */
  ghost predicate NearestDelays(t: Tables, slug: Slug, zone: Zone, estimated: map<Key, int>, delays: map<Key, int>) {
    var reach := Reach(t, slug, zone, estimated);
    (forall o :: o in reach && KeyOf(o) in estimated ==> KeyOf(o) in delays) &&
    forall k :: k in delays ==>
      k in estimated &&
      exists o :: IsNearest(zone, estimated, reach, o) && KeyOf(o) == k && delays[k] == estimated[k] - TimeOf(zone, o)
  }

  function DelaysOf(estimated: map<Key, int>, candidates: Candidates): map<Key, int> {
    map k | k in candidates && k in estimated :: estimated[k] - candidates[k].1
  }

  /** Candidates over rows that agree with the reach on the predicted keys give nearest delays. */
  lemma CandidatesGiveDelays(t: Tables, slug: Slug, zone: Zone, estimated: map<Key, int>, seen: iset<Occurrence>,
                             candidates: Candidates)
    requires AreNearest(zone, estimated, seen, candidates)
    requires forall o :: KeyOf(o) in estimated ==> (o in seen <==> o in Reach(t, slug, zone, estimated))
    ensures NearestDelays(t, slug, zone, estimated, DelaysOf(estimated, candidates))
  {
    hide Reach, Distance, TimeOf;
    var reach := Reach(t, slug, zone, estimated);
    var delays := DelaysOf(estimated, candidates);
    forall k | k in delays
      ensures exists o ::
              IsNearest(zone, estimated, reach, o) && KeyOf(o) == k && delays[k] == estimated[k] - TimeOf(zone, o)
    {
      var o :| IsNearest(zone, estimated, seen, o) && KeyOf(o) == k &&
        candidates[k] == (Distance(zone, estimated, o), TimeOf(zone, o));
      assert IsNearest(zone, estimated, reach, o);
    }
  }

  function TripsOf(estimated: map<Key, int>): set<string> { set k | k in estimated :: k.tripId }

  /** The rows of the first batches. */
  ghost function SeenBefore(t: Tables, slug: Slug, batches: seq<seq<string>>, n: nat, low: Day,
                            high: Day): iset<Occurrence>
    requires n <= |batches|
  {
    iset o | IsScheduled(t, slug, o) && low <= o.day <= high && exists i :: 0 <= i < n && o.tripId in batches[i]
  }

  lemma SeenNext(t: Tables, slug: Slug, batches: seq<seq<string>>, n: nat, low: Day, high: Day, rows: seq<Occurrence>)
    requires n < |batches| && 1 <= low <= MAX_DAY && 1 <= high <= MAX_DAY
    requires Enumerates(rows, Occurrences(t, slug, Elements(batches[n]), low, high))
    ensures SeenBefore(t, slug, batches, n, low, high) + Rows(rows) == SeenBefore(t, slug, batches, n + 1, low, high)
  {
    forall o ensures o in rows <==> IsScheduled(t, slug, o) && o.tripId in batches[n] && low <= o.day <= high {
      OccurrenceMeaning(t, slug, Elements(batches[n]), low, high, o);
    }
  }

  /** What SQLite may return for one batch of trips: its occurrences in reach, in some order. */
  ghost predicate IsBatchRows(t: Tables, slug: Slug, zone: Zone, estimated: map<Key, int>, batch: seq<string>,
                              rows: seq<Occurrence>) {
    Distinct(rows) && forall o :: o in rows <==> o in Reach(t, slug, zone, estimated) && o.tripId in batch
  }

  ghost predicate AreBatchRows(t: Tables, slug: Slug, zone: Zone, estimated: map<Key, int>, batches: seq<seq<string>>,
                               lists: seq<seq<Occurrence>>) {
    |lists| == |batches| && forall i :: 0 <= i < |lists| ==> IsBatchRows(t, slug, zone, estimated, batches[i], lists[i])
  }

  /** The candidates after the rows of every batch. */
  function ScanAll(zone: Zone, estimated: map<Key, int>, lists: seq<seq<Occurrence>>): Candidates {
    if lists == [] then map[]
    else Scan(zone, estimated, ScanAll(zone, estimated, lists[..|lists| - 1]), lists[|lists| - 1])
  }

  /** What the search may return with this batch size: any order of the trips, any order of each batch's rows. */
  ghost predicate IsOutcome(t: Tables, slug: Slug, zone: Zone, estimated: map<Key, int>, batchSize: nat,
                            delays: map<Key, int>)
    requires batchSize > 0
  {
    exists trips, lists ::
      Enumerates(trips, TripsOf(estimated)) &&
      AreBatchRows(t, slug, zone, estimated, Batches(trips, batchSize), lists) &&
      delays == DelaysOf(estimated, ScanAll(zone, estimated, lists))
  }

  predicate InSome(lists: seq<seq<Occurrence>>, o: Occurrence) { exists i :: 0 <= i < |lists| && o in lists[i] }

  ghost function AllRows(lists: seq<seq<Occurrence>>): iset<Occurrence> { iset o | InSome(lists, o) }

  lemma AllRowsNext(lists: seq<seq<Occurrence>>)
    requires lists != []
    ensures AllRows(lists) == AllRows(lists[..|lists| - 1]) + Rows(lists[|lists| - 1])
  {
    var n := |lists| - 1;
    forall o ensures InSome(lists, o) <==> InSome(lists[..n], o) || o in lists[n] {
      if i :| 0 <= i < n && o in lists[i] { assert o in lists[..n][i]; }
    }
  }

  lemma {:induction false} ScanAllNearest(zone: Zone, estimated: map<Key, int>, lists: seq<seq<Occurrence>>)
    ensures AreNearest(zone, estimated, AllRows(lists), ScanAll(zone, estimated, lists))
  {
    hide Scan;
    if lists != [] {
      var n := |lists| - 1;
      hide AreNearest;
      ScanAllNearest(zone, estimated, lists[..n]);
      ScanKeepsNearest(zone, estimated, AllRows(lists[..n]), ScanAll(zone, estimated, lists[..n]), lists[n]);
      AllRowsNext(lists);
    }
  }

  /** The rows of all batches are the occurrences in reach of the predicted trips. */
  lemma BatchesReachAll(t: Tables, slug: Slug, zone: Zone, estimated: map<Key, int>, batchSize: nat, trips: seq<string>,
                        lists: seq<seq<Occurrence>>, o: Occurrence)
    requires batchSize > 0 && Enumerates(trips, TripsOf(estimated))
    requires AreBatchRows(t, slug, zone, estimated, Batches(trips, batchSize), lists) && KeyOf(o) in estimated
    ensures o in AllRows(lists) <==> o in Reach(t, slug, zone, estimated)
  {
    hide Batches, Reach;
    var batches := Batches(trips, batchSize);
    assert o.tripId in trips by { assert o.tripId in TripsOf(estimated); }
    BatchesCover(trips, batchSize, o.tripId);
    var i :| 0 <= i < |batches| && o.tripId in batches[i];
    assert IsBatchRows(t, slug, zone, estimated, batches[i], lists[i]);
    if j :| 0 <= j < |lists| && o in lists[j] {
      assert IsBatchRows(t, slug, zone, estimated, batches[j], lists[j]);
    }
  }

  /** Whatever the batch size and the orders, the search returns one of the nearest-occurrence assignments. */
  lemma OutcomesAreNearest(t: Tables, slug: Slug, zone: Zone, estimated: map<Key, int>, batchSize: nat,
                           delays: map<Key, int>)
    requires batchSize > 0 && IsOutcome(t, slug, zone, estimated, batchSize, delays)
    ensures NearestDelays(t, slug, zone, estimated, delays)
  {
    hide Batches, Reach, AllRows, AreNearest, NearestDelays, AreBatchRows, Enumerates, ScanAll;
    var trips, lists :|
      Enumerates(trips, TripsOf(estimated)) &&
      AreBatchRows(t, slug, zone, estimated, Batches(trips, batchSize), lists) &&
      delays == DelaysOf(estimated, ScanAll(zone, estimated, lists));
    ScanAllNearest(zone, estimated, lists);
    forall o | KeyOf(o) in estimated ensures o in AllRows(lists) <==> o in Reach(t, slug, zone, estimated) {
      BatchesReachAll(t, slug, zone, estimated, batchSize, trips, lists, o);
    }
    CandidatesGiveDelays(t, slug, zone, estimated, AllRows(lists), ScanAll(zone, estimated, lists));
  }

  lemma NothingPredicted(t: Tables, slug: Slug, zone: Zone, batchSize: nat)
    requires batchSize > 0
    ensures IsOutcome(t, slug, zone, map[], batchSize, map[])
  {
    assert Enumerates([], TripsOf(map[]));
    assert AreBatchRows(t, slug, zone, map[], Batches([], batchSize), []);
    assert ScanAll(zone, map[], []) == map[];
  }

  lemma WindowRows(t: Tables, slug: Slug, zone: Zone, estimated: map<Key, int>, batch: seq<string>, low: Day, high: Day,
                   rows: seq<Occurrence>)
    requires 1 <= low <= MAX_DAY && 1 <= high <= MAX_DAY
    requires forall day :: low <= day <= high <==> InReach(zone, estimated, day)
    requires Enumerates(rows, Occurrences(t, slug, Elements(batch), low, high))
    ensures IsBatchRows(t, slug, zone, estimated, batch, rows)
  {
    hide IsScheduled, InReach;
    forall o ensures o in rows <==> o in Reach(t, slug, zone, estimated) && o.tripId in batch {
      OccurrenceMeaning(t, slug, Elements(batch), low, high, o);
    }
  }

  /**
   * _delays_from_absolute_times: it fails exactly when a prediction is outside the calendar; otherwise it
   * returns an outcome of the search, and so a nearest-occurrence assignment.
   */
  method DelaysFromAbsoluteTimes(t: Tables, slug: Slug, zone: Zone, estimated: map<Key, int>, batchSize: nat)
      returns (r: Result<map<Key, int>>)
    requires batchSize > 0
    ensures r.Success? <==> Representable(zone, estimated)
    ensures r.Success? ==> IsOutcome(t, slug, zone, estimated, batchSize, r.value)
    ensures r.Success? ==> NearestDelays(t, slug, zone, estimated, r.value)
  {
    hide Scan, IsScheduled, Batches, IsBatchRows, Reach, InReach, NearestDelays, DelaysOf;
    NothingPredicted(t, slug, zone, batchSize);
    if estimated == map[] {
      OutcomesAreNearest(t, slug, zone, estimated, batchSize, map[]);
      return Success(map[]);
    }
    var tripIds := ListSet(TripsOf(estimated));
    var window := Window(zone, estimated);
    if window.Failure? {
      return Failure;
    }
    var (low, high) := window.value;
    var batches := Batches(tripIds, batchSize);
    var candidates: Candidates := map[];
    ghost var lists: seq<seq<Occurrence>> := [];
    for i := 0 to |batches|
      invariant |lists| == i && candidates == ScanAll(zone, estimated, lists)
      invariant forall j :: 0 <= j < i ==> IsBatchRows(t, slug, zone, estimated, batches[j], lists[j])
    {
      var rows := SelectOccurrences(t, slug, Elements(batches[i]), low, high);
      WindowRows(t, slug, zone, estimated, batches[i], low, high, rows);
      candidates := ScanRows(zone, estimated, candidates, rows);
      assert (lists + [rows])[..i] == lists;
      lists := lists + [rows];
    }
    assert AreBatchRows(t, slug, zone, estimated, batches, lists);
    OutcomesAreNearest(t, slug, zone, estimated, batchSize, DelaysOf(estimated, candidates));
    return Success(DelaysOf(estimated, candidates));
  }

  lemma NoCandidates(t: Tables, slug: Slug, zone: Zone, estimated: map<Key, int>, batches: seq<seq<string>>, low: Day,
                     high: Day)
    ensures AreNearest(zone, estimated, SeenBefore(t, slug, batches, 0, low, high), map[])
  {
  }

  /** The inner loop over the rows of one SELECT. */
  method ScanRows(zone: Zone, estimated: map<Key, int>, before: Candidates, rows: seq<Occurrence>)
      returns (candidates: Candidates)
    ensures candidates == Scan(zone, estimated, before, rows)
  {
    candidates := before;
    assert rows[..|rows|] == rows;
    for i := 0 to |rows|
      invariant candidates == Scan(zone, estimated, before, rows[..i])
    {
      assert rows[..i + 1][..i] == rows[..i];
      var key := KeyOf(rows[i]);
      if key !in estimated {
        continue;
      }
      var scheduled := TimeOf(zone, rows[i]);
      var distance := Abs(estimated[key] - scheduled);
      if key !in candidates || distance < candidates[key].0 {
        candidates := candidates[key := (distance, scheduled)];
      }
    }
  }

  // ---------------------------------------------------------------- the overlay

  function RowsOf(slug: Slug, delays: map<Key, int>, cancelled: set<string>, skipped: set<Key>): OverlayRows {
    OverlayRows(
      map k | k in delays :: UpdateKey(slug, k.tripId, k.sequence) := delays[k],
      set trip | trip in cancelled :: TripKey(slug, trip),
      set k | k in skipped :: UpdateKey(slug, k.tripId, k.sequence))
  }

  /** rows are what the feeds make of the provider's schedule in t: direct delays win over derived ones. */
  ghost predicate OverlayFrom(t: Tables, slug: Slug, zone: Zone, feeds: seq<FeedMessage>, rows: OverlayRows) {
    var g := Gather(feeds);
    exists nearest :: NearestDelays(t, slug, zone, g.estimated, nearest) &&
      rows == RowsOf(slug, nearest + g.delays, g.cancelled, g.skipped)
  }

  /** The provider's overlay replaced by rows. */
  function WithOverlay(t: Tables, slug: Slug, rows: OverlayRows): Tables {
    var cleared := Delete(Delete(Delete(t, DelayTable, slug), CancellationTable, slug), SkipTable, slug);
    cleared.(delays := cleared.delays + rows.delays,
             cancellations := cleared.cancellations + rows.cancellations,
             skips := cleared.skips + rows.skips)
  }

  lemma WithOverlayMeaning(t: Tables, slug: Slug, rows: OverlayRows)
    requires OverlayRowsOf(rows, slug)
    ensures OverlayOf(WithOverlay(t, slug, rows), slug) == rows
    ensures forall s :: StaticOf(WithOverlay(t, slug, rows), s) == StaticOf(t, s)
    ensures OthersUntouched(t, WithOverlay(t, slug, rows), slug)
  {
    hide OverlayOf, StaticOf, WithOverlay;
    OverlayOfOwner(t, slug, rows);
    forall s ensures StaticOf(WithOverlay(t, slug, rows), s) == StaticOf(t, s) {
      OverlayKeepsSchedules(t, slug, rows, s);
    }
    forall other | other != slug ensures OverlayOf(WithOverlay(t, slug, rows), other) == OverlayOf(t, other) {
      OverlayKeepsOthers(t, slug, rows, other);
    }
  }

  lemma OverlayOfOwner(t: Tables, slug: Slug, rows: OverlayRows)
    requires OverlayRowsOf(rows, slug)
    ensures OverlayOf(WithOverlay(t, slug, rows), slug) == rows
    ensures WithOverlay(t, slug, rows).providers == t.providers
  {
    var own := OverlayOf(WithOverlay(t, slug, rows), slug);
    assert own.delays == rows.delays;
    assert own.cancellations == rows.cancellations;
    assert own.skips == rows.skips;
  }

  lemma OverlayKeepsSchedules(t: Tables, slug: Slug, rows: OverlayRows, s: Slug)
    ensures StaticOf(WithOverlay(t, slug, rows), s) == StaticOf(t, s)
  {
  }

  lemma OverlayKeepsOthers(t: Tables, slug: Slug, rows: OverlayRows, other: Slug)
    requires OverlayRowsOf(rows, slug) && other != slug
    ensures OverlayOf(WithOverlay(t, slug, rows), other) == OverlayOf(t, other)
  {
    var before, after := OverlayOf(t, other), OverlayOf(WithOverlay(t, slug, rows), other);
    assert after.delays == before.delays;
    assert after.cancellations == before.cancellations;
    assert after.skips == before.skips;
  }

  // ---------------------------------------------------------------- the writes

  const OVERLAY_STATEMENTS: nat := 6

  function OverlayStatement(t: Tables, slug: Slug, rows: OverlayRows, k: nat): Result<Tables>
    requires k < OVERLAY_STATEMENTS
  {
    if k == 0 then Success(Delete(t, DelayTable, slug))
    else if k == 1 then Success(Delete(t, CancellationTable, slug))
    else if k == 2 then Success(Delete(t, SkipTable, slug))
    else if k == 3 then
      var delays :- CopyRows(t.delays, rows.delays);
      Success(t.(delays := delays))
    else if k == 4 then
      if t.cancellations !! rows.cancellations then Success(t.(cancellations := t.cancellations + rows.cancellations))
        else Failure
    else
      if t.skips !! rows.skips then Success(t.(skips := t.skips + rows.skips)) else Failure
  }

  /** A statement fails exactly on a key that is already there. */
  lemma OverlayStatementFails(t: Tables, slug: Slug, rows: OverlayRows, k: nat)
    requires k < OVERLAY_STATEMENTS
    ensures OverlayStatement(t, slug, rows, k).Failure? <==>
            (k == 3 && exists key :: key in t.delays && key in rows.delays) ||
            (k == 4 && exists key :: key in t.cancellations && key in rows.cancellations) ||
            (k == 5 && exists key :: key in t.skips && key in rows.skips)
  {
    hide Delete;
  }

  function OverlayPrefix(t: Tables, slug: Slug, rows: OverlayRows, k: nat): Result<Tables>
    requires k <= OVERLAY_STATEMENTS
  {
    if k == 0 then Success(t)
    else
      var before :- OverlayPrefix(t, slug, rows, k - 1);
      OverlayStatement(before, slug, rows, k - 1)
  }

  lemma OverlayDeletes(t: Tables, slug: Slug, rows: OverlayRows)
    ensures var d := Delete(t, DelayTable, slug);
      OverlayPrefix(t, slug, rows, 0) == Success(t) &&
      OverlayPrefix(t, slug, rows, 1) == Success(d) &&
      OverlayPrefix(t, slug, rows, 2) == Success(Delete(d, CancellationTable, slug)) &&
      OverlayPrefix(t, slug, rows, 3) == Success(Delete(Delete(d, CancellationTable, slug), SkipTable, slug))
  {
    hide Delete;
  }

  lemma OverlayInserts(t: Tables, slug: Slug, rows: OverlayRows)
    requires OverlayRowsOf(rows, slug)
    requires OverlayPrefix(t, slug, rows, 3) ==
             Success(Delete(Delete(Delete(t, DelayTable, slug), CancellationTable, slug), SkipTable, slug))
    ensures OverlayPrefix(t, slug, rows, 4).Success? && OverlayPrefix(t, slug, rows, 5).Success?
    ensures OverlayPrefix(t, slug, rows, 6) == Success(WithOverlay(t, slug, rows))
  {
    var c := Delete(Delete(Delete(t, DelayTable, slug), CancellationTable, slug), SkipTable, slug);
    assert c.delays.Keys !! rows.delays.Keys;
    assert OverlayPrefix(t, slug, rows, 4) == Success(c.(delays := c.delays + rows.delays));
    assert c.cancellations !! rows.cancellations;
    assert OverlayPrefix(t, slug, rows, 5) ==
           Success(c.(delays := c.delays + rows.delays, cancellations := c.cancellations + rows.cancellations));
    assert c.skips !! rows.skips;
  }

  /** No statement of an overlay write fails on a key: the INSERTs meet only other providers' rows. */
  lemma OverlayNeverConflicts(t: Tables, slug: Slug, rows: OverlayRows, k: nat)
    requires OverlayRowsOf(rows, slug) && k <= OVERLAY_STATEMENTS
    ensures OverlayPrefix(t, slug, rows, k).Success?
    ensures k == OVERLAY_STATEMENTS ==> OverlayPrefix(t, slug, rows, k).value == WithOverlay(t, slug, rows)
  {
    hide OverlayPrefix, WithOverlay, Delete;
    OverlayDeletes(t, slug, rows);
    OverlayInserts(t, slug, rows);
    assert k == 0 || k == 1 || k == 2 || k == 3 || k == 4 || k == 5 || k == 6;
  }

  /** The DELETEs and INSERTs of replace_realtime_delays, none of which fails. */
  method WriteOverlay(connection: Connection, slug: Slug, rows: OverlayRows)
    requires OverlayRowsOf(rows, slug)
    modifies connection`tables
    ensures connection.tables == WithOverlay(old(connection.tables), slug, rows)
  {
    hide OverlayStatement, WithOverlay;
    for k := 0 to OVERLAY_STATEMENTS
      invariant OverlayPrefix(old(connection.tables), slug, rows, k) == Success(connection.tables)
    {
      OverlayNeverConflicts(old(connection.tables), slug, rows, k + 1);
      connection.tables := OverlayStatement(connection.tables, slug, rows, k).value;
    }
    OverlayNeverConflicts(old(connection.tables), slug, rows, OVERLAY_STATEMENTS);
  }

  // ---------------------------------------------------------------- replace_realtime_delays

  /** delays.setdefault for every derived delay. */
  method SetDefaults(delays: map<Key, int>, derived: map<Key, int>) returns (merged: map<Key, int>)
    ensures merged == derived + delays
  {
    var keys := ListSet(derived.Keys);
    merged := delays;
    for i := 0 to |keys|
      invariant forall k :: k in merged <==> k in delays || k in keys[..i]
      invariant forall k :: k in merged ==> merged[k] == if k in delays then delays[k] else derived[k]
    {
      if keys[i] !in merged {
        merged := merged[keys[i] := derived[keys[i]]];
      }
      assert keys[..i + 1] == keys[..i] + [keys[i]];
    }
    assert keys[..|keys|] == keys;
  }

  /**
   * replace_realtime_delays: it fails exactly on a feed without a header or a prediction outside
   * the calendar; otherwise the provider's overlay becomes what the feeds make of its schedule.
   */
  method ReplaceRealtimeDelays(connection: Connection, slug: Slug, zone: Zone, feeds: seq<FeedMessage>, batchSize: nat)
      returns (ok: bool, rows: OverlayRows)
    requires batchSize > 0
    modifies connection`tables
    ensures ok <==> (forall m :: m in feeds ==> HasHeader(m)) && Representable(zone, Gather(feeds).estimated)
    ensures ok ==> OverlayFrom(old(connection.tables), slug, zone, feeds, rows)
    ensures ok ==> connection.tables == WithOverlay(old(connection.tables), slug, rows)
  {
    hide NearestDelays, Gather, WithOverlay;
    rows := NO_OVERLAY;
    var collector := new Collector();
    ok := collector.CollectFeeds(feeds);
    if !ok {
      return;
    }
    var derived := DelaysFromAbsoluteTimes(connection.tables, slug, zone, collector.estimated, batchSize);
    if derived.Failure? {
      ok := false;
      return;
    }
    var delays := SetDefaults(collector.delays, derived.value);
    rows := RowsOf(slug, delays, collector.cancelled, collector.skipped);
    assert OverlayFrom(connection.tables, slug, zone, feeds, rows);
    WriteOverlay(connection, slug, rows);
  }
}
