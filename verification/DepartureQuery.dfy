/**
 * schedule() of app/repositories/transit_queries.py: the seven-table SELECT as nested loops over
 * physical row lists, against a plain set specification over the keyed tables.
 */
module DepartureQuery {
  import opened Prelude
  import opened Calendar
  import opened Text
  import opened StopName
  import opened Schema
  import opened LikePattern
  import opened Sql
  import opened Realtime

  type DepartureRec = (DepartureKey, DepartureRow)
  type StopRec = (StopKey, StopRow)
  type DelayRec = (UpdateKey, int)

  /** The tables as SQLite may walk them: lists of rows in some order. */
  datatype Storage = Storage(
    departures: seq<DepartureRec>, stops: seq<StopRec>, serviceDates: seq<ServiceDate>,
    delays: seq<DelayRec>, cancellations: seq<TripKey>, skips: seq<UpdateKey>)

  /** The lists hold the rows of the tables, once each: this is all that the primary keys promise. */
  ghost predicate Stores(st: Storage, t: Tables) {
    Enumerates(st.departures, t.departures.Items) && Enumerates(st.stops, t.stops.Items) &&
    Enumerates(st.serviceDates, t.serviceDates) && Enumerates(st.delays, t.delays.Items) &&
    Enumerates(st.cancellations, t.cancellations) && Enumerates(st.skips, t.skips)
  }

  /**
   * The bound parameters: name is the casefolded normalised stop name, fold the casefold function,
   * today and secondsToday the local wall clock in whole seconds.
   */
  datatype Query = Query(
    slug: Slug, name: Option<string>, fold: string -> string, today: Day, secondsToday: int, count: int)

  function QueryFor(slug: Slug, stopName: Option<string>, fold: string -> string, today: Day, secondsToday: int,
                    count: int): Query {
    var name := if stopName.Some? then Some(fold(Normalize(stopName.value))) else None;
    Query(slug, name, fold, today, secondsToday, count)
  }

  /** One row of the FROM clause. */
  datatype Joined = Joined(
    d: DepartureRec, s: StopRec, sd: ServiceDate, rt: Option<DelayRec>, cancelled: Option<TripKey>,
      skipped: Option<UpdateKey>)

  // ---------------------------------------------------------------- FROM ... JOIN ... ON

  function OnStop(d: DepartureRec): StopRec -> bool {
    (s: StopRec) => s.0.slug == d.0.slug && s.0.stopId == d.0.stopId
  }

  function OnService(d: DepartureRec): ServiceDate -> bool {
    (sd: ServiceDate) => sd.slug == d.0.slug && sd.serviceId == d.1.serviceId
  }

  function OnDelay(d: DepartureRec): DelayRec -> bool {
    (rt: DelayRec) => rt.0.slug == d.0.slug && rt.0.tripId == d.0.tripId && rt.0.sequence == d.0.sequence
  }

  function OnCancellation(d: DepartureRec): TripKey -> bool {
    (c: TripKey) => c.slug == d.0.slug && c.tripId == d.0.tripId
  }

  function OnSkip(d: DepartureRec): UpdateKey -> bool {
    (k: UpdateKey) => k.slug == d.0.slug && k.tripId == d.0.tripId && k.sequence == d.0.sequence
  }

  function RowOf(d: DepartureRec, s: StopRec, sd: ServiceDate, rt: Option<DelayRec>,
                 c: Option<TripKey>): Option<UpdateKey> -> seq<Joined> {
    (k: Option<UpdateKey>) => [Joined(d, s, sd, rt, c, k)]
  }

  function WithSkips(st: Storage, d: DepartureRec, s: StopRec, sd: ServiceDate,
                     rt: Option<DelayRec>): Option<TripKey> -> seq<Joined> {
    (c: Option<TripKey>) => FlatMap(RowOf(d, s, sd, rt, c), Outer(Filter(OnSkip(d), st.skips)))
  }

  function WithCancellations(st: Storage, d: DepartureRec, s: StopRec,
                             sd: ServiceDate): Option<DelayRec> -> seq<Joined> {
    (rt: Option<DelayRec>) => FlatMap(WithSkips(st, d, s, sd, rt), Outer(Filter(OnCancellation(d), st.cancellations)))
  }

  function WithDelays(st: Storage, d: DepartureRec, s: StopRec): ServiceDate -> seq<Joined> {
    (sd: ServiceDate) => FlatMap(WithCancellations(st, d, s, sd), Outer(Filter(OnDelay(d), st.delays)))
  }

  function WithDates(st: Storage, d: DepartureRec): StopRec -> seq<Joined> {
    (s: StopRec) => FlatMap(WithDelays(st, d, s), Filter(OnService(d), st.serviceDates))
  }

  function WithStops(st: Storage): DepartureRec -> seq<Joined> {
    (d: DepartureRec) => FlatMap(WithDates(st, d), Filter(OnStop(d), st.stops))
  }

  function FromClause(st: Storage): seq<Joined> { FlatMap(WithStops(st), st.departures) }

  // ---------------------------------------------------------------- WHERE

  /** No name asked, an exact match, or a fuzzy one when the provider has no exact one. */
  predicate NameMatches(st: Storage, q: Query, stopName: string) {
    q.name.None? ||
    q.fold(stopName) == q.name.value ||
    (!(exists s :: s in st.stops && s.0.slug == q.slug && q.fold(s.1.name) == q.name.value) &&
     Like("%" + q.name.value + "%", q.fold(stopName)))
  }

  predicate DateMatches(q: Query, day: Day, scheduledSeconds: int) {
    (day == q.today && scheduledSeconds >= q.secondsToday) ||
    (day == q.today - 1 && scheduledSeconds >= SECONDS_PER_DAY + q.secondsToday)
  }

  function Where(st: Storage, q: Query): Joined -> bool {
    (r: Joined) =>
      r.d.0.slug == q.slug && r.cancelled.None? && r.skipped.None? &&
      NameMatches(st, q, r.s.1.name) && DateMatches(q, r.sd.day, r.d.1.scheduledSeconds)
  }

  // ---------------------------------------------------------------- ORDER BY ... LIMIT

  /** COALESCE(rt.delay_seconds, 0). */
  function DelayOf(r: Joined): int { if r.rt.Some? then r.rt.value.1 else 0 }

  /** The sort key's first part, in exact seconds of the wall clock. */
  function EstimatedWall(r: Joined): int { Wall(r.sd.day, r.d.1.scheduledSeconds) + DelayOf(r) }

  predicate NotAfter(a: Joined, b: Joined) {
    EstimatedWall(a) < EstimatedWall(b) ||
    (EstimatedWall(a) == EstimatedWall(b) &&
     ((a.d.0.tripId != b.d.0.tripId && TextLe(a.d.0.tripId, b.d.0.tripId)) ||
      (a.d.0.tripId == b.d.0.tripId && a.d.0.sequence <= b.d.0.sequence)))
  }

  const ORDER: (Joined, Joined) -> bool := (a, b) => NotAfter(a, b)

  lemma OrderIsTotalPreorder()
    ensures IsTotalPreorder(ORDER)
  {
    forall a, b ensures ORDER(a, b) || ORDER(b, a) {
      TextLeTotal(a.d.0.tripId, b.d.0.tripId);
    }
    forall a, b, c | ORDER(a, b) && ORDER(b, c) ensures ORDER(a, c) {
      if EstimatedWall(a) == EstimatedWall(b) == EstimatedWall(c) {
        var x, y, z := a.d.0.tripId, b.d.0.tripId, c.d.0.tripId;
        if x != y && y != z {
          TextLeTransitive(x, y, z);
          if x == z { TextLeAntisymmetric(x, y); }
        }
      }
    }
  }

  /** rows is a result that SQLite may return for the query on this storage. */
  ghost predicate IsResult(st: Storage, q: Query, rows: seq<Joined>) {
    exists ordered ::
      IsOrdering(ORDER, Filter(Where(st, q), FromClause(st)), ordered) && rows == ordered[..Kept(q.count, |ordered|)]
  }

  // ---------------------------------------------------------------- the set specification

  /** The provider's stop of a departure shows under the requested name. */
  ghost predicate NameQualifies(t: Tables, q: Query, stopName: string) {
    q.name.None? ||
    q.fold(stopName) == q.name.value ||
    ((forall k :: k in t.stops && k.slug == q.slug ==> q.fold(t.stops[k].name) != q.name.value) &&
     Like("%" + q.name.value + "%", q.fold(stopName)))
  }

  /** A (departure, service date) pair that the query is about. */
  ghost predicate Qualifies(t: Tables, q: Query, k: DepartureKey, day: Day) {
    k in t.departures && k.slug == q.slug &&
    ServiceDate(k.slug, t.departures[k].serviceId, day) in t.serviceDates &&
    StopKey(k.slug, k.stopId) in t.stops &&
    TripKey(k.slug, k.tripId) !in t.cancellations &&
    UpdateKey(k.slug, k.tripId, k.sequence) !in t.skips &&
    NameQualifies(t, q, t.stops[StopKey(k.slug, k.stopId)].name) &&
    DateMatches(q, day, t.departures[k].scheduledSeconds)
  }

  /** The one row of a pair: every other column is looked up by a full primary key. */
  function PairRow(t: Tables, k: DepartureKey, sd: ServiceDate): Joined
    requires k in t.departures && StopKey(k.slug, k.stopId) in t.stops
  {
    var stop, update, trip :=
      StopKey(k.slug, k.stopId), UpdateKey(k.slug, k.tripId, k.sequence), TripKey(k.slug, k.tripId);
    Joined((k, t.departures[k]), (stop, t.stops[stop]), sd,
           if update in t.delays then Some((update, t.delays[update])) else None,
           if trip in t.cancellations then Some(trip) else None,
           if update in t.skips then Some(update) else None)
  }

  ghost function QualifyingRows(t: Tables, q: Query): set<Joined> {
    set k, sd | k in t.departures && sd in t.serviceDates && sd.slug == k.slug &&
                sd.serviceId == t.departures[k].serviceId && Qualifies(t, q, k, sd.day)
             :: PairRow(t, k, sd)
  }

  // ---------------------------------------------------------------- the join is a lookup

  lemma SingleFlatMap<A, B>(f: A -> seq<B>, x: A, b: B)
    requires f(x) == [b]
    ensures FlatMap(f, [x]) == [b]
  {
    FlatMapOne(f, x);
  }

  lemma OuterOne<T>(x: T)
    ensures Outer([x]) == [Some(x)] && Outer<T>([]) == [None]
  {
  }

  lemma LookupSkip(st: Storage, t: Tables, d: DepartureRec)
    requires Stores(st, t)
    ensures var k := UpdateKey(d.0.slug, d.0.tripId, d.0.sequence);
      Outer(Filter(OnSkip(d), st.skips)) == [if k in t.skips then Some(k) else None]
  {
    var k := UpdateKey(d.0.slug, d.0.tripId, d.0.sequence);
    OuterOne(k);
    if k in t.skips { KeyLookup(OnSkip(d), st.skips, k); } else { NoMatch(OnSkip(d), st.skips); }
  }

  lemma LookupCancellation(st: Storage, t: Tables, d: DepartureRec)
    requires Stores(st, t)
    ensures var k := TripKey(d.0.slug, d.0.tripId);
      Outer(Filter(OnCancellation(d), st.cancellations)) == [if k in t.cancellations then Some(k) else None]
  {
    var k := TripKey(d.0.slug, d.0.tripId);
    OuterOne(k);
    if k in t.cancellations {
      KeyLookup(OnCancellation(d), st.cancellations, k);
    } else {
      NoMatch(OnCancellation(d), st.cancellations);
    }
  }

  lemma LookupDelay(st: Storage, t: Tables, d: DepartureRec)
    requires Stores(st, t)
    ensures var k := UpdateKey(d.0.slug, d.0.tripId, d.0.sequence);
      Outer(Filter(OnDelay(d), st.delays)) == [if k in t.delays then Some((k, t.delays[k])) else None]
  {
    var k := UpdateKey(d.0.slug, d.0.tripId, d.0.sequence);
    if k in t.delays {
      OuterOne((k, t.delays[k]));
      assert (k, t.delays[k]) in t.delays.Items;
      KeyLookup(OnDelay(d), st.delays, (k, t.delays[k]));
    } else {
      NoMatch(OnDelay(d), st.delays);
    }
  }

  lemma LookupStop(st: Storage, t: Tables, d: DepartureRec)
    requires Stores(st, t)
    ensures var k := StopKey(d.0.slug, d.0.stopId);
      Filter(OnStop(d), st.stops) == if k in t.stops then [(k, t.stops[k])] else []
  {
    var k := StopKey(d.0.slug, d.0.stopId);
    if k in t.stops {
      assert (k, t.stops[k]) in t.stops.Items;
      KeyLookup(OnStop(d), st.stops, (k, t.stops[k]));
    } else {
      NoMatch(OnStop(d), st.stops);
    }
  }

  /** With the departure, its stop and the date fixed, the three outer joins add exactly one row. */
  lemma OuterJoinsAddOneRow(st: Storage, t: Tables, k: DepartureKey, sd: ServiceDate)
    requires Stores(st, t) && k in t.departures && StopKey(k.slug, k.stopId) in t.stops
    ensures WithDelays(st, (k, t.departures[k]), (StopKey(k.slug, k.stopId), t.stops[StopKey(k.slug, k.stopId)]))(sd) ==
            [PairRow(t, k, sd)]
  {
    hide Stores, Filter, FlatMap;
    var d := (k, t.departures[k]);
    var r := PairRow(t, k, sd);
    LookupSkip(st, t, d);
    LookupCancellation(st, t, d);
    LookupDelay(st, t, d);
    SingleFlatMap(RowOf(d, r.s, sd, r.rt, r.cancelled), r.skipped, r);
    SingleFlatMap(WithSkips(st, d, r.s, sd, r.rt), r.cancelled, r);
    SingleFlatMap(WithCancellations(st, d, r.s, sd), r.rt, r);
  }

  /** The rows of one departure: one for each date of its service, if its stop exists. */
  ghost predicate IsPairOf(t: Tables, k: DepartureKey, r: Joined) {
    k in t.departures && StopKey(k.slug, k.stopId) in t.stops && r.sd in t.serviceDates &&
    r.sd.slug == k.slug && r.sd.serviceId == t.departures[k].serviceId && r == PairRow(t, k, r.sd)
  }

  lemma DepartureRows(st: Storage, t: Tables, k: DepartureKey)
    requires Stores(st, t) && k in t.departures
    ensures Distinct(WithStops(st)((k, t.departures[k])))
    ensures forall r :: r in WithStops(st)((k, t.departures[k])) <==> IsPairOf(t, k, r)
  {
    var d := (k, t.departures[k]);
    var stop := StopKey(k.slug, k.stopId);
    LookupStop(st, t, d);
    if stop in t.stops {
      FlatMapOne(WithDates(st, d), (stop, t.stops[stop]));
      DateRows(st, t, k);
    }
  }

  lemma DateRows(st: Storage, t: Tables, k: DepartureKey)
    requires Stores(st, t) && k in t.departures && StopKey(k.slug, k.stopId) in t.stops
    ensures var stop := StopKey(k.slug, k.stopId);
      var rows := WithDates(st, (k, t.departures[k]))((stop, t.stops[stop]));
      Distinct(rows) && forall r :: r in rows <==> IsPairOf(t, k, r)
  {
    hide Filter, FlatMap;
    var d := (k, t.departures[k]);
    var s := (StopKey(k.slug, k.stopId), t.stops[StopKey(k.slug, k.stopId)]);
    var dates := Filter(OnService(d), st.serviceDates);
    var f := WithDelays(st, d, s);
    FilterDistinct(OnService(d), st.serviceDates);
    forall sd
      ensures sd in dates <==> sd in t.serviceDates && sd.slug == k.slug && sd.serviceId == t.departures[k].serviceId
    {
      FilterMember(OnService(d), st.serviceDates, sd);
    }
    forall sd ensures f(sd) == [PairRow(t, k, sd)] {
      OuterJoinsAddOneRow(st, t, k, sd);
    }
    FlatMapDistinct(f, dates);
    forall r ensures r in FlatMap(f, dates) <==> IsPairOf(t, k, r) {
      FlatMapMember(f, dates, r);
      if IsPairOf(t, k, r) {
        assert r.sd in dates;
        var i :| 0 <= i < |dates| && dates[i] == r.sd;
        assert r in f(dates[i]);
      }
    }
  }

  lemma FromClauseRows(st: Storage, t: Tables)
    requires Stores(st, t)
    ensures Distinct(FromClause(st))
    ensures forall r :: r in FromClause(st) <==> IsPairOf(t, r.d.0, r)
  {
    hide FlatMap, WithStops;
    var f := WithStops(st);
    forall d | d in st.departures ensures d.0 in t.departures && d == (d.0, t.departures[d.0]) {
      assert d in t.departures.Items;
    }
    forall d | d in st.departures
      ensures Distinct(f(d)) && forall r :: r in f(d) <==> IsPairOf(t, d.0, r)
    {
      DepartureRows(st, t, d.0);
    }
    FlatMapDistinct(f, st.departures);
    forall r: Joined ensures r in FlatMap(f, st.departures) <==> IsPairOf(t, r.d.0, r) {
      FlatMapMember(f, st.departures, r);
      if IsPairOf(t, r.d.0, r) {
        var d := (r.d.0, t.departures[r.d.0]);
        assert d in t.departures.Items;
        assert d in st.departures;
        var i :| 0 <= i < |st.departures| && st.departures[i] == d;
        assert r in f(st.departures[i]);
      }
    }
  }

  lemma NameFilterIsSpec(st: Storage, t: Tables, q: Query, stopName: string)
    requires Stores(st, t)
    ensures NameMatches(st, q, stopName) <==> NameQualifies(t, q, stopName)
  {
    forall k | k in t.stops ensures (k, t.stops[k]) in st.stops {
      assert (k, t.stops[k]) in t.stops.Items;
    }
    forall s | s in st.stops ensures s.0 in t.stops && t.stops[s.0] == s.1 {
      assert s in t.stops.Items;
    }
  }

  /** The nested loops of the SELECT list exactly the qualifying pairs, each once, in any storage order. */
  lemma JoinIsSetSpecification(st: Storage, t: Tables, q: Query)
    requires Stores(st, t)
    ensures Enumerates(Filter(Where(st, q), FromClause(st)), QualifyingRows(t, q))
  {
    hide FromClause, Filter, Stores, NameMatches, NameQualifies, DateMatches;
    FromClauseRows(st, t);
    FilterDistinct(Where(st, q), FromClause(st));
    forall r ensures r in Filter(Where(st, q), FromClause(st)) <==> r in QualifyingRows(t, q) {
      FilterMember(Where(st, q), FromClause(st), r);
      NameFilterIsSpec(st, t, q, r.s.1.name);
      QualifyingRowMeaning(t, q, r);
    }
  }

  lemma QualifyingRowMeaning(t: Tables, q: Query, r: Joined)
    ensures r in QualifyingRows(t, q) <==> IsPairOf(t, r.d.0, r) && Qualifies(t, q, r.d.0, r.sd.day)
  {
    hide NameQualifies, DateMatches;
    if r in QualifyingRows(t, q) {
      var k, sd :| k in t.departures && sd in t.serviceDates && sd.slug == k.slug &&
        sd.serviceId == t.departures[k].serviceId && Qualifies(t, q, k, sd.day) && r == PairRow(t, k, sd);
      assert r.d.0 == k && r.sd == sd;
    }
    if IsPairOf(t, r.d.0, r) && Qualifies(t, q, r.d.0, r.sd.day) {
      assert r == PairRow(t, r.d.0, r.sd);
    }
  }

  // ---------------------------------------------------------------- main results

  /**
   * The query returns the first rows of the specified set: sorted, without repetition, as many as
   * asked or as there are, and nothing left out sorts before anything returned.
   */
  lemma ResultIsTop(st: Storage, t: Tables, q: Query, rows: seq<Joined>)
    requires Stores(st, t) && IsResult(st, q, rows)
    ensures IsTop(ORDER, QualifyingRows(t, q), q.count, rows)
    ensures q.count >= 0 ==> |rows| <= q.count
    ensures q.count < 0 || |rows| < q.count ==> forall r :: r in QualifyingRows(t, q) ==> r in rows
  {
    hide QualifyingRows, FromClause, Filter, Stores;
    var joined := Filter(Where(st, q), FromClause(st));
    var ordered :| IsOrdering(ORDER, joined, ordered) && rows == ordered[..Kept(q.count, |ordered|)];
    JoinIsSetSpecification(st, t, q);
    LimitOfOrdering(ORDER, joined, QualifyingRows(t, q), ordered, q.count);
  }

  /** And every top of the set is a result that some tie order returns: the specification is exact. */
  lemma TopIsResult(st: Storage, t: Tables, q: Query, rows: seq<Joined>)
    requires Stores(st, t) && IsTop(ORDER, QualifyingRows(t, q), q.count, rows)
    ensures IsResult(st, q, rows)
  {
    OrderIsTotalPreorder();
    JoinIsSetSpecification(st, t, q);
    var ordered := TopIsSomeLimit(ORDER, Filter(Where(st, q), FromClause(st)), QualifyingRows(t, q), rows, q.count);
  }

  /** A (departure, service date) pair is returned at most once. */
  lemma PairsAtMostOnce(st: Storage, t: Tables, q: Query, rows: seq<Joined>, i: nat, j: nat)
    requires Stores(st, t) && IsResult(st, q, rows) && i < |rows| && j < |rows|
    requires rows[i].d.0 == rows[j].d.0 && rows[i].sd.day == rows[j].sd.day
    ensures i == j
  {
    hide IsResult, Stores, QualifyingRows, Qualifies;
    ResultIsTop(st, t, q, rows);
    hide Sorted;
    assert rows[i] in rows && rows[j] in rows;
    QualifyingRowMeaning(t, q, rows[i]);
    QualifyingRowMeaning(t, q, rows[j]);
    assert rows[i].sd == rows[j].sd;
  }

  /** An exact name shuts out every fuzzy one; without it every row matches the pattern. */
  lemma ExactBeforeFuzzy(st: Storage, t: Tables, q: Query, rows: seq<Joined>, r: Joined)
    requires Stores(st, t) && IsResult(st, q, rows) && r in rows && q.name.Some?
    ensures var exact := exists k :: k in t.stops && k.slug == q.slug && q.fold(t.stops[k].name) == q.name.value;
      (exact ==> q.fold(r.s.1.name) == q.name.value) &&
      (!exact ==> Like("%" + q.name.value + "%", q.fold(r.s.1.name))) &&
      (!exact && !HasWildcard(q.name.value) ==> IsSubstring(q.name.value, q.fold(r.s.1.name)))
  {
    hide Like, IsSubstring, HasWildcard, Stores, IsResult, DateMatches, Sorted;
    ResultIsTop(st, t, q, rows);
    QualifyingRowMeaning(t, q, r);
    assert StopKey(r.d.0.slug, r.d.0.stopId) in t.stops;
    if !HasWildcard(q.name.value) {
      PlainFragmentIsSubstring(q.name.value, q.fold(r.s.1.name));
    }
  }

  /** All imported times of the provider are below 48 hours. */
  ghost predicate TimesCapped(t: Tables, slug: Slug) {
    forall k :: k in t.departures && k.slug == slug ==> 0 <= t.departures[k].scheduledSeconds < TIME_LIMIT
  }

  /**
   * Two service dates are enough: with capped times, the date filter passes exactly the occurrences
   * of service dates up to today whose scheduled wall-clock time is not before now.
   */
  lemma TwoDatesSuffice(t: Tables, q: Query, k: DepartureKey, day: Day)
    requires TimesCapped(t, q.slug) && k in t.departures && k.slug == q.slug
    requires 0 <= q.secondsToday < SECONDS_PER_DAY
    ensures DateMatches(q, day, t.departures[k].scheduledSeconds) <==>
            day <= q.today && Wall(day, t.departures[k].scheduledSeconds) >= Wall(q.today, q.secondsToday)
  {
  }

  /** The cap is what makes it true: a time of 48:00:00 can be due and belong to neither date. */
  lemma CapIsNeeded(q: Query)
    requires q.secondsToday == 0
    ensures Wall(q.today - 2, TIME_LIMIT) >= Wall(q.today, q.secondsToday)
    ensures !DateMatches(q, q.today - 2, TIME_LIMIT)
  {
  }

  /** Asking for more returns everything upcoming: nothing live and due is lost when count allows. */
  lemma UpcomingIsReturned(st: Storage, t: Tables, q: Query, rows: seq<Joined>, k: DepartureKey, sd: ServiceDate)
    requires Stores(st, t) && IsResult(st, q, rows) && TimesCapped(t, q.slug)
    requires 0 <= q.secondsToday < SECONDS_PER_DAY && (q.count < 0 || q.count >= |QualifyingRows(t, q)|)
    requires k in t.departures && k.slug == q.slug && StopKey(k.slug, k.stopId) in t.stops
    requires sd in t.serviceDates && sd.slug == k.slug && sd.serviceId == t.departures[k].serviceId
    requires TripKey(k.slug, k.tripId) !in t.cancellations && UpdateKey(k.slug, k.tripId, k.sequence) !in t.skips
    requires NameQualifies(t, q, t.stops[StopKey(k.slug, k.stopId)].name)
    ensures PairRow(t, k, sd) in rows <==>
            sd.day <= q.today && Wall(sd.day, t.departures[k].scheduledSeconds) >= Wall(q.today, q.secondsToday)
  {
    hide NameQualifies, DateMatches, Wall, IsResult, Stores;
    ResultIsTop(st, t, q, rows);
    TwoDatesSuffice(t, q, k, sd.day);
    QualifyingRowMeaning(t, q, PairRow(t, k, sd));
    TopLength(ORDER, QualifyingRows(t, q), q.count, rows);
    AllReturned(rows, QualifyingRows(t, q));
  }

  lemma {:induction false} AllReturned(rows: seq<Joined>, s: set<Joined>)
    requires Distinct(rows) && (forall r :: r in rows ==> r in s) && |rows| == |s|
    ensures forall r :: r in s ==> r in rows
  {
    var listed := Elements(rows);
    EnumerationLength(rows, listed);
    assert listed <= s;
    SubsetOfSameSize(listed, s);
  }

  // ---------------------------------------------------------------- the method

  datatype DepartureModel = DepartureModel(
    tripId: string, stopName: string, route: string, destination: Option<string>,
    scheduledAt: int, estimatedAt: int, delaySeconds: int)

  /** One element of the response; instants are wall-clock readings. */
  function ModelOf(r: Joined): DepartureModel {
    var scheduled := Wall(r.sd.day, r.d.1.scheduledSeconds);
    DepartureModel(r.d.0.tripId, Normalize(r.s.1.name), r.d.1.routeName, r.d.1.destination,
                   scheduled, scheduled + DelayOf(r), DelayOf(r))
  }

  /** Some list of the tables' rows; no query can tell which. */
  method ReadStorage(t: Tables) returns (st: Storage)
    ensures Stores(st, t)
  {
    var departures := ListSet(t.departures.Items);
    var stops := ListSet(t.stops.Items);
    var dates := ListSet(t.serviceDates);
    var delays := ListSet(t.delays.Items);
    var cancellations := ListSet(t.cancellations);
    var skips := ListSet(t.skips);
    st := Storage(departures, stops, dates, delays, cancellations, skips);
  }

  /** Executing the SELECT. */
  method Select(st: Storage, q: Query) returns (rows: seq<Joined>)
    ensures IsResult(st, q, rows)
  {
    var joined := Filter(Where(st, q), FromClause(st));
    OrderIsTotalPreorder();
    SortOrders(ORDER, joined);
    var ordered := Sort(ORDER, joined);
    rows := ordered[..Kept(q.count, |ordered|)];
  }

  // ---------------------------------------------------------------- the response, told on the tables

  /** A request at a wall-clock reading: the local date, and the seconds since its midnight. */
  datatype Request = Request(
    slug: Slug, stopName: Option<string>, fold: string -> string, today: Day, secondsToday: int)

  /**
   * No name is asked for, or the stop has it, or no stop of the provider has it and some stretch of the stop's name
   * matches it as a pattern.
   */
  ghost predicate IsAskedFor(t: Tables, ask: Request, stopName: string) {
    ask.stopName.Some? ==>
      var wanted, name := ask.fold(Normalize(ask.stopName.value)), ask.fold(stopName);
      name == wanted ||
      ((forall k :: k in t.stops && k.slug == ask.slug ==> ask.fold(t.stops[k].name) != wanted) &&
       exists i, j :: 0 <= i <= j <= |name| && Like(wanted, name[i..j]))
  }

  /** A departure on a service date that answers the request: it runs, it is asked for, and it is not past. */
  ghost predicate Answers(t: Tables, ask: Request, k: DepartureKey, day: Day) {
    k in t.departures && k.slug == ask.slug && StopKey(k.slug, k.stopId) in t.stops &&
    ServiceDate(k.slug, t.departures[k].serviceId, day) in t.serviceDates &&
    TripKey(k.slug, k.tripId) !in t.cancellations && UpdateKey(k.slug, k.tripId, k.sequence) !in t.skips &&
    IsAskedFor(t, ask, t.stops[StopKey(k.slug, k.stopId)].name) &&
    var seconds := t.departures[k].scheduledSeconds;
    (day == ask.today && seconds >= ask.secondsToday) || (day == ask.today - 1 && seconds >= 86400 + ask.secondsToday)
  }

  /** What the response says of it; day 719163 is 1970-01-01. */
  ghost predicate IsTold(t: Tables, k: DepartureKey, day: Day, m: DepartureModel) {
    k in t.departures && StopKey(k.slug, k.stopId) in t.stops &&
    var d, update := t.departures[k], UpdateKey(k.slug, k.tripId, k.sequence);
    m.tripId == k.tripId && m.stopName == Normalize(t.stops[StopKey(k.slug, k.stopId)].name) &&
    m.route == d.routeName && m.destination == d.destination &&
    m.scheduledAt == (day - 719163) * 86400 + d.scheduledSeconds &&
    m.delaySeconds == (if update in t.delays then t.delays[update] else 0) &&
    m.estimatedAt == m.scheduledAt + m.delaySeconds
  }

  /** By estimated time, then by trip, then along the trip. */
  predicate ComesFirst(a: DepartureModel, i: DepartureKey, b: DepartureModel, j: DepartureKey) {
    a.estimatedAt < b.estimatedAt ||
    (a.estimatedAt == b.estimatedAt &&
     ((i.tripId != j.tripId && TextLe(i.tripId, j.tripId)) || (i.tripId == j.tripId && i.sequence <= j.sequence)))
  }

  function QueryOf(ask: Request, count: int): Query {
    QueryFor(ask.slug, ask.stopName, ask.fold, ask.today, ask.secondsToday, count)
  }

  lemma AskedForIsQualified(t: Tables, ask: Request, count: int, stopName: string)
    ensures IsAskedFor(t, ask, stopName) <==> NameQualifies(t, QueryOf(ask, count), stopName)
  {
    hide Normalize, Like;
    if ask.stopName.Some? {
      FragmentMatchesSomewhere(ask.fold(Normalize(ask.stopName.value)), ask.fold(stopName));
    }
  }

  /** The qualifying rows are the answers, and their models tell them. */
  lemma RowsAreAnswers(t: Tables, ask: Request, count: int, r: Joined)
    requires r in QualifyingRows(t, QueryOf(ask, count))
    ensures Answers(t, ask, r.d.0, r.sd.day) && IsTold(t, r.d.0, r.sd.day, ModelOf(r))
    ensures r == PairRow(t, r.d.0, ServiceDate(r.d.0.slug, t.departures[r.d.0].serviceId, r.sd.day))
  {
    hide Normalize, IsAskedFor, NameQualifies;
    QualifyingRowMeaning(t, QueryOf(ask, count), r);
    AskedForIsQualified(t, ask, count, r.s.1.name);
    hide QualifyingRows;
  }

  lemma AnswersAreRows(t: Tables, ask: Request, count: int, k: DepartureKey, day: Day) returns (r: Joined)
    requires Answers(t, ask, k, day)
    ensures r in QualifyingRows(t, QueryOf(ask, count)) && r.d.0 == k && r.sd.day == day
  {
    hide Normalize, IsAskedFor, NameQualifies;
    r := PairRow(t, k, ServiceDate(k.slug, t.departures[k].serviceId, day));
    AskedForIsQualified(t, ask, count, r.s.1.name);
    QualifyingRowMeaning(t, QueryOf(ask, count), r);
    hide QualifyingRows;
  }

  lemma OrderOfModels(a: Joined, b: Joined)
    ensures ORDER(a, b) <==> ComesFirst(ModelOf(a), a.d.0, ModelOf(b), b.d.0)
  {
    hide Wall, Normalize, TextLe;
  }

  lemma ToldOnce(t: Tables, k: DepartureKey, day: Day, a: DepartureModel, b: DepartureModel)
    requires IsTold(t, k, day, a) && IsTold(t, k, day, b)
    ensures a == b
  {
    hide Normalize;
  }

  /** The answers with their departures: sorted, each once, and only what comes last is left out, for want of room. */
  ghost predicate IsResponse(t: Tables, ask: Request, count: int, rows: seq<Joined>, result: seq<DepartureModel>) {
    |result| == |rows| &&
    (forall i :: 0 <= i < |result| ==>
       Answers(t, ask, rows[i].d.0, rows[i].sd.day) && IsTold(t, rows[i].d.0, rows[i].sd.day, result[i])) &&
    (forall i, j :: 0 <= i < j < |result| ==>
       (rows[i].d.0 != rows[j].d.0 || rows[i].sd.day != rows[j].sd.day) &&
       ComesFirst(result[i], rows[i].d.0, result[j], rows[j].d.0)) &&
    (count >= 0 ==> |result| <= count) &&
    forall k, day, m :: Answers(t, ask, k, day) && IsTold(t, k, day, m) ==>
      (exists i :: 0 <= i < |result| && rows[i].d.0 == k && rows[i].sd.day == day) ||
      (count == |result| && forall i :: 0 <= i < |result| ==> ComesFirst(result[i], rows[i].d.0, m, k))
  }

  lemma TopIsResponse(t: Tables, ask: Request, count: int, rows: seq<Joined>, result: seq<DepartureModel>)
    requires IsTop(ORDER, QualifyingRows(t, QueryOf(ask, count)), count, rows)
    requires |result| == |rows| && forall i :: 0 <= i < |rows| ==> result[i] == ModelOf(rows[i])
    ensures IsResponse(t, ask, count, rows, result)
  {
    hide QualifyingRows, ModelOf, ORDER, ComesFirst, Answers, IsTold, PairRow;
    var q := QueryOf(ask, count);
    hide QueryOf;
    forall i | 0 <= i < |rows|
      ensures Answers(t, ask, rows[i].d.0, rows[i].sd.day) && IsTold(t, rows[i].d.0, rows[i].sd.day, result[i])
    {
      assert rows[i] in rows;
      RowsAreAnswers(t, ask, count, rows[i]);
    }
    forall i, j | 0 <= i < j < |rows|
      ensures rows[i].d.0 != rows[j].d.0 || rows[i].sd.day != rows[j].sd.day
      ensures ComesFirst(result[i], rows[i].d.0, result[j], rows[j].d.0)
    {
      assert rows[i] in rows && rows[j] in rows;
      RowsAreAnswers(t, ask, count, rows[i]);
      RowsAreAnswers(t, ask, count, rows[j]);
      OrderOfModels(rows[i], rows[j]);
    }
    forall k, day, m | Answers(t, ask, k, day) && IsTold(t, k, day, m)
      ensures (exists i :: 0 <= i < |result| && rows[i].d.0 == k && rows[i].sd.day == day) ||
              (count == |result| && forall i :: 0 <= i < |result| ==> ComesFirst(result[i], rows[i].d.0, m, k))
    {
      var r := AnswersAreRows(t, ask, count, k, day);
      RowsAreAnswers(t, ask, count, r);
      ToldOnce(t, k, day, m, ModelOf(r));
      LeftOutComesLast(QualifyingRows(t, q), count, rows, r);
    }
  }

  lemma LeftOutComesLast(s: set<Joined>, count: int, rows: seq<Joined>, r: Joined)
    requires IsTop(ORDER, s, count, rows) && r in s
    ensures (exists i :: 0 <= i < |rows| && rows[i] == r) ||
            (count == |rows| &&
             forall i :: 0 <= i < |rows| ==> ComesFirst(ModelOf(rows[i]), rows[i].d.0, ModelOf(r), r.d.0))
  {
    hide ModelOf, ORDER, ComesFirst;
    if r !in rows {
      forall i | 0 <= i < |rows| ensures ComesFirst(ModelOf(rows[i]), rows[i].d.0, ModelOf(r), r.d.0) {
        assert rows[i] in rows;
        OrderOfModels(rows[i], r);
      }
    }
  }

  /**
   * schedule: the answers to the request by estimated time, trip and sequence, each told from the tables; at most
   * count of them, and all of them if there are fewer or count is negative.
   */
  method Schedule(t: Tables, ask: Request, count: int) returns (result: seq<DepartureModel>, rows: seq<Joined>)
    ensures IsResponse(t, ask, count, rows, result)
    ensures count >= 0 ==> |result| <= count
    ensures count < 0 || |result| < count ==>
              forall k, day :: Answers(t, ask, k, day) ==>
                exists i :: 0 <= i < |rows| && rows[i].d.0 == k && rows[i].sd.day == day
    ensures IsTop(ORDER, QualifyingRows(t, QueryOf(ask, count)), count, rows)
  {
    hide QualifyingRows, IsResult, Stores, Normalize, Wall, DelayOf, IsResponse, Answers;
    var q := QueryOf(ask, count);
    var st := ReadStorage(t);
    rows := Select(st, q);
    ResultIsTop(st, t, q, rows);
    result := [];
    for i := 0 to |rows|
      invariant |result| == i
      invariant forall j :: 0 <= j < i ==> result[j] == ModelOf(rows[j])
    {
      result := result + [ModelOf(rows[i])];
    }
    TopIsResponse(t, ask, count, rows, result);
    forall k, day | (count < 0 || |result| < count) && Answers(t, ask, k, day)
      ensures exists i :: 0 <= i < |rows| && rows[i].d.0 == k && rows[i].sd.day == day
    {
      var r := AnswersAreRows(t, ask, count, k, day);
      assert r in rows;
    }
  }
}
