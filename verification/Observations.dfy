/** Reading GTFS-Realtime TripUpdates, app/repositories/gtfs_realtime.py: what the feeds say. */
module Observations {
  import opened Prelude
  import opened Text

  /** A protobuf StopTimeEvent: both fields are optional. */
  datatype StopTimeEvent = StopTimeEvent(delay: Option<int>, time: Option<int>)

  datatype StopTimeUpdate = StopTimeUpdate(
    sequence: Option<int>, isSkipped: bool, arrival: Option<StopTimeEvent>, departure: Option<StopTimeEvent>)

  datatype TripUpdate = TripUpdate(tripId: string, isCanceled: bool, updates: seq<StopTimeUpdate>)

  /** A decoded FeedMessage; an entity without a trip update is None. */
  datatype FeedMessage = FeedMessage(isInitialized: bool, version: string, entities: seq<Option<TripUpdate>>)

  /** (trip, stop sequence): what a realtime row is about. */
  datatype Key = Key(tripId: string, sequence: int)

  /** _delay: the departure's delay, else the arrival's. */
  function Delay(u: StopTimeUpdate): Option<int> {
    if u.departure.Some? && u.departure.value.delay.Some? then u.departure.value.delay
    else if u.arrival.Some? then u.arrival.value.delay
    else None
  }

  /** _estimated_time: the departure's time, else the arrival's. */
  function EstimatedTime(u: StopTimeUpdate): Option<int> {
    if u.departure.Some? && u.departure.value.time.Some? then u.departure.value.time
    else if u.arrival.Some? then u.arrival.value.time
    else None
  }

  /** The header check of replace_realtime_delays. */
  predicate HasHeader(m: FeedMessage) { m.isInitialized && Strip(m.version) != "" }

  // ---------------------------------------------------------------- what one update contributes

  datatype Observation =
    | Cancelled(trip: string)
    | Skipped(key: Key)
    | Direct(key: Key, delay: int)
    | Predicted(key: Key, time: int)

  function OfUpdate(trip: string, u: StopTimeUpdate): seq<Observation> {
    if u.sequence.None? then []
    else
      var key := Key(trip, u.sequence.value);
      if u.isSkipped then [Skipped(key)]
      else if Delay(u).Some? then [Direct(key, Delay(u).value)]
      else if EstimatedTime(u).Some? then [Predicted(key, EstimatedTime(u).value)]
      else []
  }

  function OfUpdates(trip: string, updates: seq<StopTimeUpdate>): seq<Observation> {
    FlatMap(u => OfUpdate(trip, u), updates)
  }

  function OfEntity(entity: Option<TripUpdate>): seq<Observation> {
    if entity.None? || Strip(entity.value.tripId) == "" then []
    else if entity.value.isCanceled then [Cancelled(Strip(entity.value.tripId))]
    else OfUpdates(Strip(entity.value.tripId), entity.value.updates)
  }

  function OfEntities(entities: seq<Option<TripUpdate>>): seq<Observation> { FlatMap(OfEntity, entities) }

  function OfFeed(feed: FeedMessage): seq<Observation> { OfEntities(feed.entities) }

  function OfFeeds(feeds: seq<FeedMessage>): seq<Observation> { FlatMap(OfFeed, feeds) }

  // ---------------------------------------------------------------- what a run of observations leaves

  function DirectOf(o: Observation): seq<(Key, int)> { if o.Direct? then [(o.key, o.delay)] else [] }

  function PredictionOf(o: Observation): seq<(Key, int)> { if o.Predicted? then [(o.key, o.time)] else [] }

  function DirectDelays(s: seq<Observation>): seq<(Key, int)> { FlatMap(DirectOf, s) }

  function AbsoluteTimes(s: seq<Observation>): seq<(Key, int)> { FlatMap(PredictionOf, s) }

  function CancelledTrips(s: seq<Observation>): set<string> { set o | o in s && o.Cancelled? :: o.trip }

  function SkippedStops(s: seq<Observation>): set<Key> { set o | o in s && o.Skipped? :: o.key }

  datatype Gathered = Gathered(
    delays: map<Key, int>, estimated: map<Key, int>, cancelled: set<string>, skipped: set<Key>)

  const NOTHING := Gathered(map[], map[], {}, {})

  /** The four collections after the observations, on top of what was there. */
  function Absorb(g: Gathered, s: seq<Observation>): Gathered {
    Gathered(Upsert(g.delays, DirectDelays(s)), Upsert(g.estimated, AbsoluteTimes(s)),
             g.cancelled + CancelledTrips(s), g.skipped + SkippedStops(s))
  }

  function Gather(feeds: seq<FeedMessage>): Gathered { Absorb(NOTHING, OfFeeds(feeds)) }

  lemma KindsConcat(a: seq<Observation>, b: seq<Observation>)
    ensures CancelledTrips(a + b) == CancelledTrips(a) + CancelledTrips(b)
    ensures SkippedStops(a + b) == SkippedStops(a) + SkippedStops(b)
  {
    assert forall o :: o in a + b <==> o in a || o in b;
  }

  lemma AbsorbConcat(g: Gathered, a: seq<Observation>, b: seq<Observation>)
    ensures Absorb(g, a + b) == Absorb(Absorb(g, a), b)
  {
    FlatMapConcat(DirectOf, a, b);
    FlatMapConcat(PredictionOf, a, b);
    UpsertConcat(g.delays, DirectDelays(a), DirectDelays(b));
    UpsertConcat(g.estimated, AbsoluteTimes(a), AbsoluteTimes(b));
    KindsConcat(a, b);
  }

  lemma AbsorbNone(g: Gathered)
    ensures Absorb(g, []) == g
  {
    assert CancelledTrips([]) == {} && SkippedStops([]) == {};
  }

  /** One observation lands in one of the four collections and leaves the others alone. */
  lemma AbsorbOne(g: Gathered, o: Observation)
    ensures Absorb(g, [o]) ==
            match o
            case Cancelled(trip) => g.(cancelled := g.cancelled + {trip})
            case Skipped(key) => g.(skipped := g.skipped + {key})
            case Direct(key, delay) => g.(delays := g.delays[key := delay])
            case Predicted(key, time) => g.(estimated := g.estimated[key := time])
  {
    FlatMapOne(DirectOf, o);
    FlatMapOne(PredictionOf, o);
    assert forall p :: p in [o] <==> p == o;
    if o.Direct? { UpsertOne(g.delays, [], o.key, o.delay); assert [] + [(o.key, o.delay)] == [(o.key, o.delay)]; }
    if o.Predicted? { UpsertOne(g.estimated, [], o.key, o.time); assert [] + [(o.key, o.time)] == [(o.key, o.time)]; }
  }

  // ---------------------------------------------------------------- the collecting loops

  /** The dicts and sets that replace_realtime_delays hands to _collect_observations. */
  class Collector {
    var delays: map<Key, int>
    var estimated: map<Key, int>
    var cancelled: set<string>
    var skipped: set<Key>

    function Value(): Gathered
      reads this
    {
      Gathered(delays, estimated, cancelled, skipped)
    }

    constructor ()
      ensures Value() == NOTHING
    {
      delays, estimated, cancelled, skipped := map[], map[], {}, {};
    }

    /** The body of the inner loop, with its three ways to continue. */
    method CollectUpdate(trip: string, u: StopTimeUpdate)
      modifies this
      ensures Value() == Absorb(old(Value()), OfUpdate(trip, u))
    {
      hide Absorb;
      AbsorbNone(Value());
      if u.sequence.None? {
        return;
      }
      var key := Key(trip, u.sequence.value);
      if u.isSkipped {
        AbsorbOne(Value(), Skipped(key));
        skipped := skipped + {key};
        return;
      }
      var delay := Delay(u);
      if delay.Some? {
        AbsorbOne(Value(), Direct(key, delay.value));
        delays := delays[key := delay.value];
        return;
      }
      var time := EstimatedTime(u);
      if time.Some? {
        AbsorbOne(Value(), Predicted(key, time.value));
        estimated := estimated[key := time.value];
      }
    }

    method CollectUpdates(trip: string, updates: seq<StopTimeUpdate>)
      modifies this
      ensures Value() == Absorb(old(Value()), OfUpdates(trip, updates))
    {
      hide Absorb, FlatMap, OfUpdate;
      ghost var g := Value();
      var f := (u: StopTimeUpdate) => OfUpdate(trip, u);
      NothingRead(g, f, updates);
      assert updates[..|updates|] == updates;
      for i := 0 to |updates|
        invariant Value() == Absorb(g, FlatMap(f, updates[..i]))
      {
        FlatMapNext(f, updates, i);
        AbsorbConcat(g, FlatMap(f, updates[..i]), f(updates[i]));
        CollectUpdate(trip, updates[i]);
      }
    }

    /** The body of the entity loop. */
    method CollectEntity(entity: Option<TripUpdate>)
      modifies this
      ensures Value() == Absorb(old(Value()), OfEntity(entity))
    {
      hide Absorb, OfUpdates, Strip;
      AbsorbNone(Value());
      if entity.None? {
        return;
      }
      var trip := Strip(entity.value.tripId);
      if trip == "" {
        return;
      }
      if entity.value.isCanceled {
        AbsorbOne(Value(), Cancelled(trip));
        cancelled := cancelled + {trip};
        return;
      }
      CollectUpdates(trip, entity.value.updates);
    }

    /** _collect_observations. */
    method CollectObservations(message: FeedMessage)
      modifies this
      ensures Value() == Absorb(old(Value()), OfFeed(message))
    {
      hide Absorb, FlatMap, OfEntity;
      ghost var g := Value();
      var entities := message.entities;
      NothingRead(g, OfEntity, entities);
      assert entities[..|entities|] == entities;
      for i := 0 to |entities|
        invariant Value() == Absorb(g, FlatMap(OfEntity, entities[..i]))
      {
        FlatMapNext(OfEntity, entities, i);
        AbsorbConcat(g, FlatMap(OfEntity, entities[..i]), OfEntity(entities[i]));
        CollectEntity(entities[i]);
      }
    }

    /** The loop over the payloads: a feed without a proper header fails the whole refresh. */
    method CollectFeeds(feeds: seq<FeedMessage>) returns (ok: bool)
      requires Value() == NOTHING
      modifies this
      ensures ok <==> forall m :: m in feeds ==> HasHeader(m)
      ensures ok ==> Value() == Gather(feeds)
    {
      hide Absorb, FlatMap, OfFeed;
      NothingRead(NOTHING, OfFeed, feeds);
      assert feeds[..|feeds|] == feeds;
      for i := 0 to |feeds|
        invariant forall m :: m in feeds[..i] ==> HasHeader(m)
        invariant Value() == Absorb(NOTHING, FlatMap(OfFeed, feeds[..i]))
      {
        if !HasHeader(feeds[i]) {
          return false;
        }
        FlatMapNext(OfFeed, feeds, i);
        AbsorbConcat(NOTHING, FlatMap(OfFeed, feeds[..i]), OfFeed(feeds[i]));
        CollectObservations(feeds[i]);
      }
      return true;
    }
  }

  lemma NothingRead<A>(g: Gathered, f: A -> seq<Observation>, xs: seq<A>)
    ensures Absorb(g, FlatMap(f, xs[..0])) == g
  {
    AbsorbNone(g);
  }

  // ---------------------------------------------------------------- properties of the fold

  function EntitiesOf(feed: FeedMessage): seq<Option<TripUpdate>> { feed.entities }

  /** Several feeds in order say what one feed with all their entities says. */
  lemma FeedsAreOneFeed(feeds: seq<FeedMessage>, whole: FeedMessage)
    requires whole.entities == FlatMap(EntitiesOf, feeds)
    ensures Gather(feeds) == Gather([whole])
  {
    FeedsConcatenate(feeds);
    FlatMapOne(OfFeed, whole);
  }

  lemma {:induction false} FeedsConcatenate(feeds: seq<FeedMessage>)
    ensures OfFeeds(feeds) == OfEntities(FlatMap(EntitiesOf, feeds))
  {
    if feeds != [] {
      var n := |feeds| - 1;
      FeedsConcatenate(feeds[..n]);
      FlatMapConcat(OfEntity, FlatMap(EntitiesOf, feeds[..n]), feeds[n].entities);
    }
  }

  /** No later feed undoes a cancellation or a skip. */
  lemma NeverUndone(earlier: seq<FeedMessage>, later: seq<FeedMessage>)
    ensures Gather(earlier).cancelled <= Gather(earlier + later).cancelled
    ensures Gather(earlier).skipped <= Gather(earlier + later).skipped
  {
    FlatMapConcat(OfFeed, earlier, later);
    AbsorbConcat(NOTHING, OfFeeds(earlier), OfFeeds(later));
  }

  /**
   * Each kind keeps its own last word: the collections after any run depend only on the direct
   * delays among themselves and the predictions among themselves, not on how the kinds interleave.
   */
  lemma LastWordOfEachKind(s: seq<Observation>, k: Key)
    ensures k in Absorb(NOTHING, s).delays <==> LastValue(DirectDelays(s), k).Some?
    ensures LastValue(DirectDelays(s), k).Some? ==> Absorb(NOTHING, s).delays[k] == LastValue(DirectDelays(s), k).value
    ensures k in Absorb(NOTHING, s).estimated <==> LastValue(AbsoluteTimes(s), k).Some?
    ensures LastValue(AbsoluteTimes(s), k).Some? ==>
            Absorb(NOTHING, s).estimated[k] == LastValue(AbsoluteTimes(s), k).value
  {
    UpsertLookup(map[], DirectDelays(s), k);
    UpsertLookup(map[], AbsoluteTimes(s), k);
  }
}
