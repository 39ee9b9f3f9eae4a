/** The realtime overlay as a reader of the departure query sees it. */
module LiveView {
  import opened Schema
  import opened Observations
  import opened Realtime
  import opened DepartureQuery
  import opened MessageMeaning
  import Predictions

  /** A trip that any message of the refresh cancels is never returned, whatever the others say about it. */
  lemma CancelledTripIsHidden(st: Storage, t: Tables, q: Query, rows: seq<Joined>, zone: Zone, feeds: seq<FeedMessage>,
                              trip: string)
    requires Stores(st, t) && IsResult(st, q, rows)
    requires OverlayFrom(t, q.slug, zone, feeds, OverlayOf(t, q.slug)) && Cancels(feeds, trip)
    ensures forall r :: r in rows ==> r.d.0.tripId != trip
  {
    hide Stores, IsResult, OverlayFrom, Cancels, IsPairOf, NameQualifies, DateMatches, QualifyingRows;
    ResultIsTop(st, t, q, rows);
    OverlayExactly(t, q.slug, zone, feeds, OverlayOf(t, q.slug), Key(trip, 0), 0);
    assert TripKey(q.slug, trip) in OverlayOf(t, q.slug).cancellations;
    forall r | r in rows ensures r.d.0.tripId != trip {
      QualifyingRowMeaning(t, q, r);
    }
  }

  /** Nor is a stop of a trip that any message skips. */
  lemma SkippedStopIsHidden(st: Storage, t: Tables, q: Query, rows: seq<Joined>, zone: Zone, feeds: seq<FeedMessage>,
                            k: Key)
    requires Stores(st, t) && IsResult(st, q, rows)
    requires OverlayFrom(t, q.slug, zone, feeds, OverlayOf(t, q.slug)) && Skips(feeds, k)
    ensures forall r :: r in rows ==> Key(r.d.0.tripId, r.d.0.sequence) != k
  {
    hide Stores, IsResult, OverlayFrom, Skips, IsPairOf, NameQualifies, DateMatches, QualifyingRows;
    ResultIsTop(st, t, q, rows);
    OverlayExactly(t, q.slug, zone, feeds, OverlayOf(t, q.slug), k, 0);
    assert UpdateKey(q.slug, k.tripId, k.sequence) in OverlayOf(t, q.slug).skips;
    forall r | r in rows ensures Key(r.d.0.tripId, r.d.0.sequence) != k {
      QualifyingRowMeaning(t, q, r);
    }
  }

  /** A delay row has no service date: it shifts every occurrence of its trip and sequence alike. */
  lemma DelayAppliesToEveryDate(t: Tables, q: Query, a: Joined, b: Joined)
    requires a in QualifyingRows(t, q) && b in QualifyingRows(t, q)
    requires a.d.0.tripId == b.d.0.tripId && a.d.0.sequence == b.d.0.sequence
    ensures DelayOf(a) == DelayOf(b)
    ensures EstimatedWall(a) - Wall(a.sd.day, a.d.1.scheduledSeconds) ==
            EstimatedWall(b) - Wall(b.sd.day, b.d.1.scheduledSeconds)
  {
    hide QualifyingRows, NameQualifies, DateMatches;
    QualifyingRowMeaning(t, q, a);
    QualifyingRowMeaning(t, q, b);
  }

  /** What the response promises of a predicted instant, in a row due at the given scheduled wall time. */
  ghost predicate RoundTrips(zone: Zone, m: DepartureModel, predicted: int) {
    var sameOffset := zone.atInstant(predicted) == zone.atWall(m.scheduledAt);
    (m.estimatedAt == Predictions.Reading(zone, predicted) <==> sameOffset) &&
    (Predictions.IsShown(zone, m.estimatedAt) && Predictions.InstantOfWall(zone, m.estimatedAt) == predicted <==>
     sameOffset && Predictions.IsIdentified(zone, predicted))
  }

  /**
   * Prediction round trip through import and query, for every row whose delay comes from a prediction. The delay is
   * the predicted instant minus the time of one nearest occurrence. In the row of that occurrence estimated_at is
   * what the clock shows at the predicted instant exactly when the UTC offset then is the one at the scheduled time;
   * and it denotes that instant by a reading that occurs exactly when, besides, the instant is identified by its
   * reading. Any other row is shifted by the same delay.
   */
  lemma PredictedInstantIsReturned(t: Tables, q: Query, zone: Zone, feeds: seq<FeedMessage>, r: Joined, predicted: int)
    requires r in QualifyingRows(t, q) && r.rt.Some?
    requires OverlayFrom(t, q.slug, zone, feeds, OverlayOf(t, q.slug))
    requires var k := Key(r.d.0.tripId, r.d.0.sequence);
      FeedsSilent(feeds, Late, k) && FeedsSay(feeds, Expected, k, predicted)
    ensures var estimated := Gather(feeds).estimated;
      var m := ModelOf(r);
      m.estimatedAt - m.scheduledAt == m.delaySeconds &&
      exists o ::
        IsNearest(zone, estimated, Reach(t, q.slug, zone, estimated), o) && KeyOf(o) == KeyOf(OccurrenceOf(r)) &&
        m.delaySeconds == predicted - TimeOf(zone, o) &&
        (TimeOf(zone, o) == TimeOf(zone, OccurrenceOf(r)) ==> RoundTrips(zone, m, predicted))
  {
    hide QualifyingRows, NameQualifies, DateMatches, OverlayFrom, Reach, Gather, FeedsSay, RoundTrips;
    var k := Key(r.d.0.tripId, r.d.0.sequence);
    QualifyingRowMeaning(t, q, r);
    var estimated := Gather(feeds).estimated;
    var reach := Reach(t, q.slug, zone, estimated);
    var row := UpdateKey(q.slug, k.tripId, k.sequence);
    var overlay := OverlayOf(t, q.slug);
    assert row in overlay.delays && overlay.delays[row] == DelayOf(r);
    OverlayExactly(t, q.slug, zone, feeds, overlay, k, predicted);
    var o :| IsNearest(zone, estimated, reach, o) && KeyOf(o) == k &&
      overlay.delays[row] == predicted - TimeOf(zone, o);
    if TimeOf(zone, o) == TimeOf(zone, OccurrenceOf(r)) {
      ChosenRowRoundTrips(zone, r, predicted);
    }
  }

  lemma ChosenRowRoundTrips(zone: Zone, r: Joined, predicted: int)
    requires DelayOf(r) == predicted - TimeOf(zone, OccurrenceOf(r))
    ensures RoundTrips(zone, ModelOf(r), predicted)
  {
    hide Wall;
    Predictions.PredictionRoundTrip(zone, r.sd.day, r.d.1.scheduledSeconds, predicted);
  }

  /** The occurrence that a row of the query is about. */
  function OccurrenceOf(r: Joined): Occurrence {
    Occurrence(r.d.0.tripId, r.d.0.stopId, r.d.0.sequence, r.d.1.scheduledSeconds, r.sd.day)
  }
}
