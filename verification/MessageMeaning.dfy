/**
 * What a run of feeds says, told on their messages: which trips are cancelled, which stops are skipped, and which
 * delay or time is the last word on a stop. Nothing here uses the readers of Observations except to prove that they
 * collect just this.
 */
module MessageMeaning {
  import opened Prelude
  import opened Text
  import opened Schema
  import opened Observations
  import opened Realtime
  import opened Predictions

  // ---------------------------------------------------------------- what the messages say

  /** The entity has a trip update, of this trip; blanks around its id do not matter. */
  predicate IsAbout(e: Option<TripUpdate>, trip: string) {
    trip != "" && e.Some? && Strip(e.value.tripId) == trip
  }

  predicate CancelsTrip(e: Option<TripUpdate>, trip: string) { IsAbout(e, trip) && e.value.isCanceled }

  predicate SkipsStop(e: Option<TripUpdate>, k: Key) {
    IsAbout(e, k.tripId) && !e.value.isCanceled &&
    exists i :: 0 <= i < |e.value.updates| && e.value.updates[i].sequence == Some(k.sequence) &&
                e.value.updates[i].isSkipped
  }

  ghost predicate Cancels(feeds: seq<FeedMessage>, trip: string) {
    exists f, i :: 0 <= f < |feeds| && 0 <= i < |feeds[f].entities| && CancelsTrip(feeds[f].entities[i], trip)
  }

  ghost predicate Skips(feeds: seq<FeedMessage>, k: Key) {
    exists f, i :: 0 <= f < |feeds| && 0 <= i < |feeds[f].entities| && SkipsStop(feeds[f].entities[i], k)
  }

  /** What can be said of a stop that is not skipped: how late it is, or when it is expected. */
  datatype Kind = Late | Expected

  predicate EventSays(event: Option<StopTimeEvent>, kind: Kind, x: int) {
    event.Some? && (if kind.Late? then event.value.delay else event.value.time) == Some(x)
  }

  predicate EventSilent(event: Option<StopTimeEvent>, kind: Kind) {
    event.None? || (if kind.Late? then event.value.delay else event.value.time).None?
  }

  /** The departure's word goes before the arrival's, and a delay before a time. */
  predicate UpdateSays(u: StopTimeUpdate, kind: Kind, sequence: int, x: int) {
    u.sequence == Some(sequence) && !u.isSkipped &&
    (kind.Expected? ==> EventSilent(u.departure, Late) && EventSilent(u.arrival, Late)) &&
    (EventSays(u.departure, kind, x) || (EventSilent(u.departure, kind) && EventSays(u.arrival, kind, x)))
  }

  /** The last update of the entity that says anything of this kind about the stop says x. */
  ghost predicate EntitySays(e: Option<TripUpdate>, kind: Kind, k: Key, x: int) {
    IsAbout(e, k.tripId) && !e.value.isCanceled &&
    exists i :: 0 <= i < |e.value.updates| && UpdateSays(e.value.updates[i], kind, k.sequence, x) &&
                forall j, y :: i < j < |e.value.updates| ==> !UpdateSays(e.value.updates[j], kind, k.sequence, y)
  }

  /** So does the last entity of the feed, */
  ghost predicate FeedSays(m: FeedMessage, kind: Kind, k: Key, x: int) {
    exists i :: 0 <= i < |m.entities| && EntitySays(m.entities[i], kind, k, x) &&
                forall j, y :: i < j < |m.entities| ==> !EntitySays(m.entities[j], kind, k, y)
  }

  /** and the last of the feeds. */
  ghost predicate FeedsSay(feeds: seq<FeedMessage>, kind: Kind, k: Key, x: int) {
    exists i :: 0 <= i < |feeds| && FeedSays(feeds[i], kind, k, x) &&
                forall j, y :: i < j < |feeds| ==> !FeedSays(feeds[j], kind, k, y)
  }

  ghost predicate FeedsSilent(feeds: seq<FeedMessage>, kind: Kind, k: Key) { forall x :: !FeedsSay(feeds, kind, k, x) }

  // ---------------------------------------------------------------- cancellations and skips

  /** A trip is cancelled exactly when some entity of some feed cancels it. */
  lemma CancelledExactly(feeds: seq<FeedMessage>, trip: string)
    ensures trip in Gather(feeds).cancelled <==> Cancels(feeds, trip)
  {
    var o := Cancelled(trip);
    hide OfFeed, OfEntity;
    FlatMapMember(OfFeed, feeds, o);
    forall f | 0 <= f < |feeds|
      ensures o in OfFeed(feeds[f]) <==>
              exists i :: 0 <= i < |feeds[f].entities| && CancelsTrip(feeds[f].entities[i], trip)
    {
      FeedCancels(feeds[f], trip);
    }
    hide CancelsTrip;
    assert trip in Gather(feeds).cancelled <==> o in OfFeeds(feeds);
  }

  lemma FeedCancels(m: FeedMessage, trip: string)
    ensures Cancelled(trip) in OfFeed(m) <==>
            exists i :: 0 <= i < |m.entities| && CancelsTrip(m.entities[i], trip)
  {
    hide OfEntity, CancelsTrip;
    FlatMapMember(OfEntity, m.entities, Cancelled(trip));
    forall i | 0 <= i < |m.entities|
      ensures Cancelled(trip) in OfEntity(m.entities[i]) <==> CancelsTrip(m.entities[i], trip)
    {
      EntityCancels(m.entities[i], trip);
    }
  }

  lemma EntityCancels(e: Option<TripUpdate>, trip: string)
    ensures Cancelled(trip) in OfEntity(e) <==> CancelsTrip(e, trip)
  {
    hide Strip, FlatMap;
    if e.Some? {
      var id := Strip(e.value.tripId);
      FlatMapMember((u: StopTimeUpdate) => OfUpdate(id, u), e.value.updates, Cancelled(trip));
    }
  }

  /** A stop is skipped exactly when some update of some entity of some feed skips it. */
  lemma SkippedExactly(feeds: seq<FeedMessage>, k: Key)
    ensures k in Gather(feeds).skipped <==> Skips(feeds, k)
  {
    var o := Skipped(k);
    hide OfFeed, OfEntity;
    FlatMapMember(OfFeed, feeds, o);
    forall f | 0 <= f < |feeds|
      ensures o in OfFeed(feeds[f]) <==> exists i :: 0 <= i < |feeds[f].entities| && SkipsStop(feeds[f].entities[i], k)
    {
      FeedSkips(feeds[f], k);
    }
    hide SkipsStop;
    assert k in Gather(feeds).skipped <==> o in OfFeeds(feeds);
  }

  lemma FeedSkips(m: FeedMessage, k: Key)
    ensures Skipped(k) in OfFeed(m) <==> exists i :: 0 <= i < |m.entities| && SkipsStop(m.entities[i], k)
  {
    hide OfEntity, SkipsStop;
    FlatMapMember(OfEntity, m.entities, Skipped(k));
    forall i | 0 <= i < |m.entities| ensures Skipped(k) in OfEntity(m.entities[i]) <==> SkipsStop(m.entities[i], k) {
      EntitySkips(m.entities[i], k);
    }
  }

  lemma EntitySkips(e: Option<TripUpdate>, k: Key)
    ensures Skipped(k) in OfEntity(e) <==> SkipsStop(e, k)
  {
    hide Strip, FlatMap;
    if e.Some? {
      var id, updates := Strip(e.value.tripId), e.value.updates;
      var f := (u: StopTimeUpdate) => OfUpdate(id, u);
      FlatMapMember(f, updates, Skipped(k));
      forall i | 0 <= i < |updates|
        ensures Skipped(k) in f(updates[i]) <==>
                id == k.tripId && updates[i].sequence == Some(k.sequence) && updates[i].isSkipped
      {
      }
    }
  }

  // ---------------------------------------------------------------- the last word

  lemma {:induction false} LastValueConcat<K, V>(a: seq<(K, V)>, b: seq<(K, V)>, k: K)
    ensures LastValue(a + b, k) == if LastValue(b, k).Some? then LastValue(b, k) else LastValue(a, k)
  {
    if b == [] {
      assert a + b == a;
    } else {
      var n := |b| - 1;
      assert (a + b)[..|a| + n] == a + b[..n];
      LastValueConcat(a, b[..n], k);
    }
  }

  /** The last value in a flattened list is that of the last piece with any. */
  lemma {:induction false} LastValueOfPieces<A(!new), K(!new), V(!new)>(f: A -> seq<(K, V)>, xs: seq<A>, k: K, v: V)
    ensures LastValue(FlatMap(f, xs), k) == Some(v) <==>
            exists i :: 0 <= i < |xs| && LastValue(f(xs[i]), k) == Some(v) &&
                        forall j :: i < j < |xs| ==> LastValue(f(xs[j]), k).None?
  {
    hide LastValue;
    if xs == [] {
      NoLastValue(FlatMap(f, xs), k);
    } else {
      var n := |xs| - 1;
      var init := xs[..n];
      LastValueOfPieces(f, init, k, v);
      LastValueConcat(FlatMap(f, init), f(xs[n]), k);
      assert forall i :: 0 <= i < n ==> init[i] == xs[i];
      if LastValue(f(xs[n]), k).Some? {
        if i :| 0 <= i < |xs| && LastValue(f(xs[i]), k) == Some(v) &&
                forall j :: i < j < |xs| ==> LastValue(f(xs[j]), k).None? {
          assert i == n;
        }
      } else if i :| 0 <= i < n && LastValue(f(init[i]), k) == Some(v) &&
                     forall j :: i < j < n ==> LastValue(f(init[j]), k).None? {
        assert forall j :: i < j < |xs| ==> LastValue(f(xs[j]), k).None?;
      }
    }
  }

  lemma NoLastValue<K, V>(items: seq<(K, V)>, k: K)
    requires items == []
    ensures LastValue(items, k).None?
  {
  }

  lemma {:induction false} FlattenTwice<A, B, C>(p: B -> seq<C>, f: A -> seq<B>, g: A -> seq<C>, xs: seq<A>)
    requires forall x :: g(x) == FlatMap(p, f(x))
    ensures FlatMap(p, FlatMap(f, xs)) == FlatMap(g, xs)
  {
    if xs != [] {
      var n := |xs| - 1;
      FlattenTwice(p, f, g, xs[..n]);
      FlatMapConcat(p, FlatMap(f, xs[..n]), f(xs[n]));
    }
  }

  /** The observations of one kind, as keyed values. */
  function PickedOne(kind: Kind): Observation -> seq<(Key, int)> {
    (o: Observation) => if kind.Late? then DirectOf(o) else PredictionOf(o)
  }

  function Picked(kind: Kind, s: seq<Observation>): seq<(Key, int)> { FlatMap(PickedOne(kind), s) }

  lemma {:induction false} PickedKinds(s: seq<Observation>)
    ensures Picked(Late, s) == DirectDelays(s)
    ensures Picked(Expected, s) == AbsoluteTimes(s)
  {
    if s != [] { PickedKinds(s[..|s| - 1]); }
  }

  lemma UpdatePicks(kind: Kind, trip: string, u: StopTimeUpdate, k: Key, x: int)
    ensures LastValue(Picked(kind, OfUpdate(trip, u)), k) == Some(x) <==>
            trip == k.tripId && UpdateSays(u, kind, k.sequence, x)
  {
    var s := OfUpdate(trip, u);
    hide FlatMap, LastValue;
    if s == [] {
      NothingPicked(kind, k);
    } else {
      assert s == [s[0]];
      FlatMapOne(PickedOne(kind), s[0]);
      OneLastValue(PickedOne(kind)(s[0]), k);
    }
  }

  lemma UpdatePicksNone(kind: Kind, trip: string, u: StopTimeUpdate, k: Key)
    ensures LastValue(Picked(kind, OfUpdate(trip, u)), k).None? <==>
            trip != k.tripId || forall y :: !UpdateSays(u, kind, k.sequence, y)
  {
    hide LastValue, Picked, OfUpdate, OfEntity, OfFeed, UpdateSays, EntitySays, FeedSays;
    var last := LastValue(Picked(kind, OfUpdate(trip, u)), k);
    if last.Some? { UpdatePicks(kind, trip, u, k, last.value); }
    if y :| trip == k.tripId && UpdateSays(u, kind, k.sequence, y) { UpdatePicks(kind, trip, u, k, y); }
  }

  lemma OneLastValue<K, V>(items: seq<(K, V)>, k: K)
    requires |items| <= 1
    ensures LastValue(items, k) == if items != [] && items[0].0 == k then Some(items[0].1) else None
  {
  }

  function UpdatePicker(kind: Kind, trip: string): StopTimeUpdate -> seq<(Key, int)> {
    (u: StopTimeUpdate) => Picked(kind, OfUpdate(trip, u))
  }

  function EntityPicker(kind: Kind): Option<TripUpdate> -> seq<(Key, int)> {
    (e: Option<TripUpdate>) => Picked(kind, OfEntity(e))
  }

  function FeedPicker(kind: Kind): FeedMessage -> seq<(Key, int)> { (m: FeedMessage) => Picked(kind, OfFeed(m)) }

  lemma EntityPicks(kind: Kind, e: Option<TripUpdate>, k: Key, x: int)
    ensures LastValue(Picked(kind, OfEntity(e)), k) == Some(x) <==> EntitySays(e, kind, k, x)
  {
    hide Strip, FlatMap, LastValue, OfUpdate, UpdateSays;
    if e.None? || Strip(e.value.tripId) == "" {
      NothingPicked(kind, k);
    } else if e.value.isCanceled {
      CancellationPicks(kind, Strip(e.value.tripId), k);
    } else {
      var trip, updates := Strip(e.value.tripId), e.value.updates;
      var f := (u: StopTimeUpdate) => OfUpdate(trip, u);
      var g := UpdatePicker(kind, trip);
      FlattenTwice(PickedOne(kind), f, g, updates);
      LastValueOfPieces(g, updates, k, x);
      forall i | 0 <= i < |updates|
        ensures LastValue(g(updates[i]), k) == Some(x) <==>
                trip == k.tripId && UpdateSays(updates[i], kind, k.sequence, x)
        ensures LastValue(g(updates[i]), k).None? <==>
                trip != k.tripId || forall y :: !UpdateSays(updates[i], kind, k.sequence, y)
      {
        UpdatePicks(kind, trip, updates[i], k, x);
        UpdatePicksNone(kind, trip, updates[i], k);
      }
    }
  }

  lemma EntityPicksNone(kind: Kind, e: Option<TripUpdate>, k: Key)
    ensures LastValue(Picked(kind, OfEntity(e)), k).None? <==> forall y :: !EntitySays(e, kind, k, y)
  {
    hide LastValue, Picked, OfUpdate, OfEntity, OfFeed, UpdateSays, EntitySays, FeedSays;
    var last := LastValue(Picked(kind, OfEntity(e)), k);
    if last.Some? { EntityPicks(kind, e, k, last.value); }
    if y :| EntitySays(e, kind, k, y) { EntityPicks(kind, e, k, y); }
  }

  lemma NothingPicked(kind: Kind, k: Key)
    ensures LastValue(Picked(kind, []), k).None?
  {
  }

  lemma CancellationPicks(kind: Kind, trip: string, k: Key)
    ensures LastValue(Picked(kind, [Cancelled(trip)]), k).None?
  {
    FlatMapOne(PickedOne(kind), Cancelled(trip));
  }

  lemma FeedPicks(kind: Kind, m: FeedMessage, k: Key, x: int)
    ensures LastValue(Picked(kind, OfFeed(m)), k) == Some(x) <==> FeedSays(m, kind, k, x)
  {
    hide FlatMap, LastValue, OfEntity, EntitySays;
    var g := EntityPicker(kind);
    FlattenTwice(PickedOne(kind), OfEntity, g, m.entities);
    LastValueOfPieces(g, m.entities, k, x);
    forall i | 0 <= i < |m.entities|
      ensures LastValue(g(m.entities[i]), k) == Some(x) <==> EntitySays(m.entities[i], kind, k, x)
      ensures LastValue(g(m.entities[i]), k).None? <==> forall y :: !EntitySays(m.entities[i], kind, k, y)
    {
      EntityPicks(kind, m.entities[i], k, x);
      EntityPicksNone(kind, m.entities[i], k);
    }
  }

  lemma FeedPicksNone(kind: Kind, m: FeedMessage, k: Key)
    ensures LastValue(Picked(kind, OfFeed(m)), k).None? <==> forall y :: !FeedSays(m, kind, k, y)
  {
    hide LastValue, Picked, OfUpdate, OfEntity, OfFeed, UpdateSays, EntitySays, FeedSays;
    var last := LastValue(Picked(kind, OfFeed(m)), k);
    if last.Some? { FeedPicks(kind, m, k, last.value); }
    if y :| FeedSays(m, kind, k, y) { FeedPicks(kind, m, k, y); }
  }

  lemma FeedsPick(kind: Kind, feeds: seq<FeedMessage>, k: Key, x: int)
    ensures LastValue(Picked(kind, OfFeeds(feeds)), k) == Some(x) <==> FeedsSay(feeds, kind, k, x)
  {
    hide FlatMap, LastValue, OfFeed, FeedSays;
    var g := FeedPicker(kind);
    FlattenTwice(PickedOne(kind), OfFeed, g, feeds);
    LastValueOfPieces(g, feeds, k, x);
    forall i | 0 <= i < |feeds|
      ensures LastValue(g(feeds[i]), k) == Some(x) <==> FeedSays(feeds[i], kind, k, x)
      ensures LastValue(g(feeds[i]), k).None? <==> forall y :: !FeedSays(feeds[i], kind, k, y)
    {
      FeedPicks(kind, feeds[i], k, x);
      FeedPicksNone(kind, feeds[i], k);
    }
  }

  /** The collected delays and times are exactly the last words of the feeds. */
  lemma GatheredExactly(feeds: seq<FeedMessage>, k: Key, x: int)
    ensures k in Gather(feeds).delays && Gather(feeds).delays[k] == x <==> FeedsSay(feeds, Late, k, x)
    ensures k in Gather(feeds).estimated && Gather(feeds).estimated[k] == x <==> FeedsSay(feeds, Expected, k, x)
  {
    hide OfFeeds, FeedsSay, LastValue, DirectDelays, AbsoluteTimes;
    var s := OfFeeds(feeds);
    LastWordOfEachKind(s, k);
    PickedKinds(s);
    FeedsPick(Late, feeds, k, x);
    FeedsPick(Expected, feeds, k, x);
  }

  // ---------------------------------------------------------------- the overlay

  /**
   * What a refresh writes, told on its messages: the cancellations and skips that some message holds; under each key
   * the last direct delay if there is one, else the last time, if an occurrence of the key is in reach, minus the
   * scheduled time of a nearest one; and nothing else.
   */
  lemma OverlayExactly(t: Tables, slug: Slug, zone: Zone, feeds: seq<FeedMessage>, rows: OverlayRows, k: Key, x: int)
    requires OverlayFrom(t, slug, zone, feeds, rows)
    ensures OverlayRowsOf(rows, slug)
    ensures TripKey(slug, k.tripId) in rows.cancellations <==> Cancels(feeds, k.tripId)
    ensures UpdateKey(slug, k.tripId, k.sequence) in rows.skips <==> Skips(feeds, k)
    ensures var row := UpdateKey(slug, k.tripId, k.sequence);
      var estimated := Gather(feeds).estimated;
      var reach := Reach(t, slug, zone, estimated);
      (FeedsSay(feeds, Late, k, x) ==> row in rows.delays && rows.delays[row] == x) &&
      (FeedsSilent(feeds, Late, k) && FeedsSilent(feeds, Expected, k) ==> row !in rows.delays) &&
      (FeedsSilent(feeds, Late, k) && FeedsSay(feeds, Expected, k, x) ==>
        (row in rows.delays <==> exists o :: o in reach && KeyOf(o) == k) &&
        (row in rows.delays ==>
          exists o :: IsNearest(zone, estimated, reach, o) && KeyOf(o) == k && rows.delays[row] == x - TimeOf(zone, o)))
  {
    hide OfFeeds, FeedsSay, LastValue, DirectDelays, AbsoluteTimes, Reach, IsNearest, TimeOf, Cancels, Skips,
         NearestDelays;
    CancelledExactly(feeds, k.tripId);
    SkippedExactly(feeds, k);
    OverlayRowsExactly(t, slug, zone, feeds, rows, k);
    hide OverlayFrom, Gather;
    OverlayPrecedence(t, slug, zone, feeds, rows, k);
    var s := OfFeeds(feeds);
    PickedKinds(s);
    forall y
      ensures LastValue(DirectDelays(s), k) == Some(y) <==> FeedsSay(feeds, Late, k, y)
      ensures LastValue(AbsoluteTimes(s), k) == Some(y) <==> FeedsSay(feeds, Expected, k, y)
    {
      FeedsPick(Late, feeds, k, y);
      FeedsPick(Expected, feeds, k, y);
    }
  }

  lemma OverlayRowsExactly(t: Tables, slug: Slug, zone: Zone, feeds: seq<FeedMessage>, rows: OverlayRows, k: Key)
    requires OverlayFrom(t, slug, zone, feeds, rows)
    ensures OverlayRowsOf(rows, slug)
    ensures TripKey(slug, k.tripId) in rows.cancellations <==> k.tripId in Gather(feeds).cancelled
    ensures UpdateKey(slug, k.tripId, k.sequence) in rows.skips <==> k in Gather(feeds).skipped
  {
    hide Gather, NearestDelays;
  }
}
