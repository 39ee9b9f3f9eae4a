/** What the realtime search means for times: ties, window coverage, and the prediction round trip. */
module Predictions {
  import opened Prelude
  import opened Calendar
  import opened Text
  import opened Schema
  import opened Observations
  import opened Realtime

  // ---------------------------------------------------------------- row order and ties

  /** Among the rows of a key the chosen occurrence comes first. */
  ghost predicate Leads(choice: map<Key, Occurrence>, rows: seq<Occurrence>) {
    forall j :: 0 <= j < |rows| && KeyOf(rows[j]) in choice ==>
      exists m :: 0 <= m <= j && rows[m] == choice[KeyOf(rows[j])]
  }

  /** Each key's candidate, where there is one, is the chosen occurrence. */
  ghost predicate Follows(zone: Zone, estimated: map<Key, int>, choice: map<Key, Occurrence>, candidates: Candidates) {
    forall k :: k in candidates && k in choice && k in estimated && KeyOf(choice[k]) == k ==>
      candidates[k] == (Distance(zone, estimated, choice[k]), TimeOf(zone, choice[k]))
  }

  /** Nothing in rows is closer than the choice for its key. */
  ghost predicate Unbeaten(zone: Zone, estimated: map<Key, int>, choice: map<Key, Occurrence>, rows: seq<Occurrence>) {
    forall o :: o in rows && KeyOf(o) in choice && KeyOf(o) in estimated ==>
      KeyOf(choice[KeyOf(o)]) == KeyOf(o) && Distance(zone, estimated, choice[KeyOf(o)]) <= Distance(zone, estimated, o)
  }

  lemma {:induction false} ScannedKeysStay(zone: Zone, estimated: map<Key, int>, candidates: Candidates,
                                           rows: seq<Occurrence>, o: Occurrence)
    requires o in rows && KeyOf(o) in estimated
    ensures KeyOf(o) in Scan(zone, estimated, candidates, rows)
  {
    var n := |rows| - 1;
    assert rows == rows[..n] + [rows[n]];
    if o in rows[..n] {
      ScannedKeysStay(zone, estimated, candidates, rows[..n], o);
    }
  }

  lemma LeadsPrefix(choice: map<Key, Occurrence>, rows: seq<Occurrence>, n: nat)
    requires Leads(choice, rows) && n <= |rows|
    ensures Leads(choice, rows[..n])
  {
    hide KeyOf;
    forall j | 0 <= j < n && KeyOf(rows[..n][j]) in choice
      ensures exists m :: 0 <= m <= j && rows[..n][m] == choice[KeyOf(rows[..n][j])]
    {
      var m :| 0 <= m <= j && rows[m] == choice[KeyOf(rows[j])];
      assert rows[..n][m] == rows[m];
    }
  }

  lemma ConsiderFollows(zone: Zone, estimated: map<Key, int>, choice: map<Key, Occurrence>, candidates: Candidates,
                        o: Occurrence)
    requires Follows(zone, estimated, choice, candidates) && Unbeaten(zone, estimated, choice, [o])
    requires KeyOf(o) in choice && KeyOf(o) in estimated && KeyOf(o) !in candidates ==> choice[KeyOf(o)] == o
    ensures Follows(zone, estimated, choice, Consider(zone, estimated, candidates, o))
  {
    hide TimeOf;
    assert o in [o];
  }

  /** A leading choice that nothing beats is what the scan keeps. */
  lemma {:induction false} ScanFollowsLeader(zone: Zone, estimated: map<Key, int>, choice: map<Key, Occurrence>,
                                             candidates: Candidates, rows: seq<Occurrence>)
    requires Follows(zone, estimated, choice, candidates) && Leads(choice, rows) &&
             Unbeaten(zone, estimated, choice, rows)
    ensures Follows(zone, estimated, choice, Scan(zone, estimated, candidates, rows))
  {
    hide Follows, Distance, Consider, Leads;
    if rows != [] {
      var n := |rows| - 1;
      var init, last := rows[..n], rows[n];
      assert last in rows && forall o :: o in init ==> o in rows;
      LeadsPrefix(choice, rows, n);
      ScanFollowsLeader(zone, estimated, choice, candidates, init);
      var before := Scan(zone, estimated, candidates, init);
      if KeyOf(last) in choice && KeyOf(last) in estimated && KeyOf(last) !in before {
        var m := LeaderOf(choice, rows, n);
        if m < n {
          assert init[m] in init;
          ScannedKeysStay(zone, estimated, candidates, init, init[m]);
        }
      }
      ConsiderFollows(zone, estimated, choice, before, last);
    }
  }

  lemma LeaderOf(choice: map<Key, Occurrence>, rows: seq<Occurrence>, j: nat) returns (m: nat)
    requires Leads(choice, rows) && j < |rows| && KeyOf(rows[j]) in choice
    ensures m <= j && rows[m] == choice[KeyOf(rows[j])]
  {
    m :| m <= j && rows[m] == choice[KeyOf(rows[j])];
  }

  /** A list of a table's rows in which the choices lead. */
  lemma LeadingList(table: set<Occurrence>, choice: map<Key, Occurrence>) returns (rows: seq<Occurrence>)
    requires forall o :: o in table && KeyOf(o) in choice ==>
             KeyOf(choice[KeyOf(o)]) == KeyOf(o) && choice[KeyOf(o)] in table
    ensures Enumerates(rows, table) && Leads(choice, rows)
  {
    var chosen := set o | o in table && KeyOf(o) in choice && choice[KeyOf(o)] == o;
    var first := ListingExists(chosen);
    var rest := ListingExists(table - chosen);
    rows := first + rest;
    forall o ensures o in rows <==> o in table {
      assert o in rows <==> o in first || o in rest;
    }
    forall i, j | 0 <= i < |first| && 0 <= j < |rest| ensures first[i] != rest[j] {
      assert first[i] in first && rest[j] in rest;
    }
    forall j | 0 <= j < |rows| && KeyOf(rows[j]) in choice
      ensures exists m :: 0 <= m <= j && rows[m] == choice[KeyOf(rows[j])]
    {
      var c := choice[KeyOf(rows[j])];
      assert rows[j] in rows;
      assert c in first;
      var m :| 0 <= m < |first| && first[m] == c;
      assert rows[m] == c;
      if j < |first| { assert first[j] in first; assert rows[j] == c; }
    }
  }

  /** So there is one for the rows of a batch. */
  lemma LeadingRows(t: Tables, slug: Slug, zone: Zone, estimated: map<Key, int>, batch: seq<string>,
                    choice: map<Key, Occurrence>)
      returns (rows: seq<Occurrence>)
    requires Representable(zone, estimated)
    requires forall k :: k in choice ==> KeyOf(choice[k]) == k && choice[k] in Reach(t, slug, zone, estimated)
    ensures IsBatchRows(t, slug, zone, estimated, batch, rows) && Leads(choice, rows)
  {
    hide IsScheduled, Leads;
    var table := set o | o in Occurrences(t, slug, Elements(batch), 1, MAX_DAY) && InReach(zone, estimated, o.day);
    forall o ensures o in table <==> o in Reach(t, slug, zone, estimated) && o.tripId in batch {
      OccurrenceMeaning(t, slug, Elements(batch), 1, MAX_DAY, o);
    }
    hide Reach;
    forall o | o in table && KeyOf(o) in choice
      ensures KeyOf(choice[KeyOf(o)]) == KeyOf(o) && choice[KeyOf(o)] in table
    {
      assert choice[KeyOf(o)].tripId == o.tripId;
    }
    rows := LeadingList(table, choice);
  }

  lemma {:induction false} LeadingLists(t: Tables, slug: Slug, zone: Zone, estimated: map<Key, int>,
                                        batches: seq<seq<string>>, choice: map<Key, Occurrence>)
      returns (lists: seq<seq<Occurrence>>)
    requires Representable(zone, estimated)
    requires forall k :: k in choice ==> KeyOf(choice[k]) == k && choice[k] in Reach(t, slug, zone, estimated)
    ensures AreBatchRows(t, slug, zone, estimated, batches, lists)
    ensures forall i :: 0 <= i < |lists| ==> Leads(choice, lists[i])
  {
    hide IsBatchRows, Representable, Leads, Reach;
    lists := [];
    if batches != [] {
      var n := |batches| - 1;
      var init := LeadingLists(t, slug, zone, estimated, batches[..n], choice);
      var last := LeadingRows(t, slug, zone, estimated, batches[n], choice);
      lists := init + [last];
    }
  }

  lemma {:induction false} ScanAllFollows(zone: Zone, estimated: map<Key, int>, choice: map<Key, Occurrence>,
                                          lists: seq<seq<Occurrence>>)
    requires forall i :: 0 <= i < |lists| ==> Leads(choice, lists[i]) && Unbeaten(zone, estimated, choice, lists[i])
    ensures Follows(zone, estimated, choice, ScanAll(zone, estimated, lists))
  {
    hide Leads, Unbeaten;
    if lists != [] {
      var n := |lists| - 1;
      assert forall i :: 0 <= i < n ==> lists[..n][i] == lists[i];
      ScanAllFollows(zone, estimated, choice, lists[..n]);
      hide Follows;
      ScanFollowsLeader(zone, estimated, choice, ScanAll(zone, estimated, lists[..n]), lists[n]);
    }
  }

  /** The occurrence behind one delay of an assignment. */
  ghost function Chosen(t: Tables, slug: Slug, zone: Zone, estimated: map<Key, int>, delays: map<Key, int>,
                        k: Key): (o: Occurrence)
    requires NearestDelays(t, slug, zone, estimated, delays) && k in delays
    ensures k in estimated && IsNearest(zone, estimated, Reach(t, slug, zone, estimated), o) && KeyOf(o) == k
    ensures delays[k] == estimated[k] - TimeOf(zone, o)
  {
    var o :| IsNearest(zone, estimated, Reach(t, slug, zone, estimated), o) && KeyOf(o) == k &&
      delays[k] == estimated[k] - TimeOf(zone, o);
    o
  }

  /** Every assignment of nearest occurrences is what some row order makes of every batch size. */
  lemma NearestAreOutcomes(t: Tables, slug: Slug, zone: Zone, estimated: map<Key, int>, batchSize: nat,
                           delays: map<Key, int>)
    requires batchSize > 0 && Representable(zone, estimated) && NearestDelays(t, slug, zone, estimated, delays)
    ensures IsOutcome(t, slug, zone, estimated, batchSize, delays)
  {
    hide Representable, Batches, Leads, Scan, InReach, IsScheduled, TimeOf;
    var reach := Reach(t, slug, zone, estimated);
    var choice := map k | k in delays :: Chosen(t, slug, zone, estimated, delays, k);
    var trips := ListingExists(TripsOf(estimated));
    var lists := LeadingLists(t, slug, zone, estimated, Batches(trips, batchSize), choice);
    forall i | 0 <= i < |lists| ensures Unbeaten(zone, estimated, choice, lists[i]) {
      assert IsBatchRows(t, slug, zone, estimated, Batches(trips, batchSize)[i], lists[i]);
    }
    ScanAllFollows(zone, estimated, choice, lists);
    ScanAllNearest(zone, estimated, lists);
    var candidates := ScanAll(zone, estimated, lists);
    forall o | KeyOf(o) in estimated ensures o in AllRows(lists) <==> o in reach {
      BatchesReachAll(t, slug, zone, estimated, batchSize, trips, lists, o);
    }
    FollowedDelays(t, slug, zone, estimated, delays, choice, AllRows(lists), candidates);
  }

  /** The candidates and the assignment are about the same keys. */
  lemma CandidateKeys(t: Tables, slug: Slug, zone: Zone, estimated: map<Key, int>, delays: map<Key, int>,
                      seen: iset<Occurrence>, candidates: Candidates, k: Key)
    requires NearestDelays(t, slug, zone, estimated, delays) && AreNearest(zone, estimated, seen, candidates)
    requires forall o :: KeyOf(o) in estimated ==> (o in seen <==> o in Reach(t, slug, zone, estimated))
    ensures k in candidates <==> k in delays
  {
    hide Reach, Distance, TimeOf;
    if k in delays {
      var o := Chosen(t, slug, zone, estimated, delays, k);
      assert o in seen;
    }
  }

  lemma FollowedDelays(t: Tables, slug: Slug, zone: Zone, estimated: map<Key, int>, delays: map<Key, int>,
                       choice: map<Key, Occurrence>, seen: iset<Occurrence>, candidates: Candidates)
    requires NearestDelays(t, slug, zone, estimated, delays) && choice.Keys == delays.Keys
    requires forall k :: k in delays ==> choice[k] == Chosen(t, slug, zone, estimated, delays, k)
    requires AreNearest(zone, estimated, seen, candidates) && Follows(zone, estimated, choice, candidates)
    requires forall o :: KeyOf(o) in estimated ==> (o in seen <==> o in Reach(t, slug, zone, estimated))
    ensures DelaysOf(estimated, candidates) == delays
  {
    hide Reach, TimeOf, NearestDelays, AreNearest, IsNearest;
    forall k ensures k in candidates <==> k in delays {
      CandidateKeys(t, slug, zone, estimated, delays, seen, candidates, k);
    }
    forall k | k in delays ensures DelaysOf(estimated, candidates)[k] == delays[k] {
      assert KeyOf(choice[k]) == k;
    }
  }

  /**
   * What the batched search can return, over all orders of trips and rows, are exactly the nearest-occurrence
   * assignments; the batch size makes no difference.
   */
  lemma OutcomesExactly(t: Tables, slug: Slug, zone: Zone, estimated: map<Key, int>, batchSize: nat,
                        delays: map<Key, int>)
    requires batchSize > 0 && Representable(zone, estimated)
    ensures IsOutcome(t, slug, zone, estimated, batchSize, delays) <==> NearestDelays(t, slug, zone, estimated, delays)
  {
    hide IsOutcome, NearestDelays, Representable;
    if IsOutcome(t, slug, zone, estimated, batchSize, delays) {
      OutcomesAreNearest(t, slug, zone, estimated, batchSize, delays);
    }
    if NearestDelays(t, slug, zone, estimated, delays) {
      NearestAreOutcomes(t, slug, zone, estimated, batchSize, delays);
    }
  }

  /** No row order changes the recorded delay of k. */
  ghost predicate SameUnderAnyOrder(t: Tables, slug: Slug, zone: Zone, estimated: map<Key, int>, batchSize: nat, k: Key)
    requires batchSize > 0
  {
    forall a, b | IsOutcome(t, slug, zone, estimated, batchSize, a) && IsOutcome(t, slug, zone, estimated, batchSize, b)
      :: (k in a <==> k in b) && (k in a ==> a[k] == b[k])
  }

  /** All occurrences of the key nearest to its prediction are due at one time. */
  ghost predicate NoTie(t: Tables, slug: Slug, zone: Zone, estimated: map<Key, int>, k: Key) {
    var reach := Reach(t, slug, zone, estimated);
    forall o, p | IsNearest(zone, estimated, reach, o) && IsNearest(zone, estimated, reach, p) &&
      KeyOf(o) == KeyOf(p) == k
      :: TimeOf(zone, o) == TimeOf(zone, p)
  }

  lemma SomeAssignment(t: Tables, slug: Slug, zone: Zone, estimated: map<Key, int>) returns (delays: map<Key, int>)
    requires Representable(zone, estimated)
    ensures NearestDelays(t, slug, zone, estimated, delays)
  {
    hide Representable, Batches, Leads, ScanAll, Reach, NearestDelays;
    var trips := ListingExists(TripsOf(estimated));
    var lists := LeadingLists(t, slug, zone, estimated, Batches(trips, 1), map[]);
    delays := DelaysOf(estimated, ScanAll(zone, estimated, lists));
    OutcomesAreNearest(t, slug, zone, estimated, 1, delays);
  }

  /** For every nearest occurrence some row order records the delay against it. */
  lemma AnyNearestCanWin(t: Tables, slug: Slug, zone: Zone, estimated: map<Key, int>, batchSize: nat, o: Occurrence)
      returns (delays: map<Key, int>)
    requires batchSize > 0 && Representable(zone, estimated)
    requires IsNearest(zone, estimated, Reach(t, slug, zone, estimated), o)
    ensures IsOutcome(t, slug, zone, estimated, batchSize, delays)
    ensures KeyOf(o) in delays && delays[KeyOf(o)] == estimated[KeyOf(o)] - TimeOf(zone, o)
  {
    hide IsOutcome, Representable, Reach, IsNearest, TimeOf;
    var some := SomeAssignment(t, slug, zone, estimated);
    NearestIsPredicted(zone, estimated, Reach(t, slug, zone, estimated), o);
    delays := some[KeyOf(o) := estimated[KeyOf(o)] - TimeOf(zone, o)];
    assert NearestDelays(t, slug, zone, estimated, delays);
    NearestAreOutcomes(t, slug, zone, estimated, batchSize, delays);
  }

  lemma NearestIsPredicted(zone: Zone, estimated: map<Key, int>, seen: iset<Occurrence>, o: Occurrence)
    requires IsNearest(zone, estimated, seen, o)
    ensures KeyOf(o) in estimated
  {
  }

  /**
   * The recorded delay depends on the order in which SQLite returns rows exactly when the key is predicted
   * half way between two occurrences, whatever the batch size.
   */
  lemma OrderMattersOnlyOnTies(t: Tables, slug: Slug, zone: Zone, estimated: map<Key, int>, batchSize: nat, k: Key)
    requires batchSize > 0 && Representable(zone, estimated)
    ensures SameUnderAnyOrder(t, slug, zone, estimated, batchSize, k) <==> NoTie(t, slug, zone, estimated, k)
  {
    hide Representable, Reach, IsNearest, IsOutcome, NearestDelays, TimeOf;
    var reach := Reach(t, slug, zone, estimated);
    if SameUnderAnyOrder(t, slug, zone, estimated, batchSize, k) {
      forall o, p | IsNearest(zone, estimated, reach, o) && IsNearest(zone, estimated, reach, p) &&
        KeyOf(o) == KeyOf(p) == k
        ensures TimeOf(zone, o) == TimeOf(zone, p)
      {
        NearestIsPredicted(zone, estimated, reach, o);
        var a := AnyNearestCanWin(t, slug, zone, estimated, batchSize, o);
        var b := AnyNearestCanWin(t, slug, zone, estimated, batchSize, p);
      }
    }
    if NoTie(t, slug, zone, estimated, k) {
      forall a, b | IsOutcome(t, slug, zone, estimated, batchSize, a) &&
        IsOutcome(t, slug, zone, estimated, batchSize, b)
        ensures (k in a <==> k in b) && (k in a ==> a[k] == b[k])
      {
        OutcomesAreNearest(t, slug, zone, estimated, batchSize, a);
        OutcomesAreNearest(t, slug, zone, estimated, batchSize, b);
        NearestKeyInReach(t, slug, zone, estimated, a, k);
        NearestKeyInReach(t, slug, zone, estimated, b, k);
        if k in a {
          var o, p := Chosen(t, slug, zone, estimated, a, k), Chosen(t, slug, zone, estimated, b, k);
        }
      }
    }
  }

  /** When the clocks of Warsaw change in 2026: 01:00 UTC on 29 March and on 25 October. */
  const FORWARD_2026: int := 1774746000
  const BACK_2026: int := 1792890000

  /** Europe/Warsaw in 2026. A skipped reading has the offset from before, a repeated one means the first time. */
  const WARSAW_2026 := Zone(
    x => if FORWARD_2026 <= x < BACK_2026 then 7200 else 3600,
    w => if FORWARD_2026 + 7200 <= w < BACK_2026 + 7200 then 7200 else 3600)

  /** 1 June and 29 March 2026, dates that the importer accepts. */
  const JUNE_1: Day := 739768
  const MARCH_29: Day := 739704

  lemma ExampleDays()
    ensures ToDay(Civil(2026, 6, 1)) == JUNE_1 && ToDay(Civil(2026, 3, 29)) == MARCH_29
    ensures FIRST_SERVICE_DAY <= MARCH_29 < JUNE_1 < LAST_SERVICE_DAY
    ensures FORWARD_2026 == Wall(MARCH_29, 3600) && BACK_2026 == Wall(ToDay(Civil(2026, 10, 25)), 3600)
  {
  }

  /**
   * A real tie: a departure of 00:00:00 on 1 and 2 June 2026, predicted for noon between them. For every batch size
   * one row order records half a day late and another half a day early.
   */
  lemma TieDependsOnRowOrder(t: Tables, batchSize: nat)
    requires t.departures == map[DepartureKey("p", "T", "S", 1) := DepartureRow("svc", 0, "1", None)] && batchSize > 0
    requires t.serviceDates == {ServiceDate("p", "svc", JUNE_1), ServiceDate("p", "svc", JUNE_1 + 1)}
    ensures FIRST_SERVICE_DAY <= JUNE_1 < JUNE_1 + 1 <= LAST_SERVICE_DAY
    ensures var estimated := map[Key("T", 1) := Wall(JUNE_1, 43200) - 7200];
      (exists delays ::
        IsOutcome(t, "p", WARSAW_2026, estimated, batchSize, delays) && Holds(delays, Key("T", 1), 43200)) &&
      (exists delays ::
        IsOutcome(t, "p", WARSAW_2026, estimated, batchSize, delays) && Holds(delays, Key("T", 1), -43200))
  {
    hide IsOutcome;
    var estimated := map[Key("T", 1) := Wall(JUNE_1, 43200) - 7200];
    var reach := Reach(t, "p", WARSAW_2026, estimated);
    var first, second := Occurrence("T", "S", 1, 0, JUNE_1), Occurrence("T", "S", 1, 0, JUNE_1 + 1);
    assert LocalDay(WARSAW_2026, estimated[Key("T", 1)]) == JUNE_1;
    forall o ensures o in reach <==> o == first || o == second {}
    assert Distance(WARSAW_2026, estimated, first) == Distance(WARSAW_2026, estimated, second) == 43200;
    var a := AnyNearestCanWin(t, "p", WARSAW_2026, estimated, batchSize, first);
    var b := AnyNearestCanWin(t, "p", WARSAW_2026, estimated, batchSize, second);
  }

  predicate Holds(delays: map<Key, int>, k: Key, delay: int) { k in delays && delays[k] == delay }

  // ---------------------------------------------------------------- window coverage

  /** The wall-clock date on which an occurrence departs. */
  function ScheduledDay(day: Day, seconds: int): Day { day + seconds / SECONDS_PER_DAY }

  /** With the parsed times, an occurrence due on the prediction's local date or the next one is in reach. */
  lemma WindowCoverage(zone: Zone, estimated: map<Key, int>, k: Key, day: Day, seconds: int)
    requires k in estimated && 0 <= seconds < TIME_LIMIT
    requires var p := LocalDay(zone, estimated[k]); p <= ScheduledDay(day, seconds) <= p + 1
    ensures InReach(zone, estimated, day)
  {
    assert seconds / SECONDS_PER_DAY <= 1;
    var p := LocalDay(zone, estimated[k]);
    assert p - 1 <= day <= p + 1;
  }

  /**
   * The window is too short by one case: of the occurrences due within a day of a prediction, it misses exactly
   * those due the day before with a time of 24:00:00 or later, and those only when no prediction of the refresh
   * is for an earlier day.
   */
  lemma WindowMissesExactly(zone: Zone, estimated: map<Key, int>, k: Key, day: Day, seconds: int)
    requires k in estimated && 0 <= seconds < TIME_LIMIT
    requires var p := LocalDay(zone, estimated[k]); p - 1 <= ScheduledDay(day, seconds) <= p + 1
    ensures var p := LocalDay(zone, estimated[k]);
      !InReach(zone, estimated, day) <==>
      ScheduledDay(day, seconds) == p - 1 && seconds >= SECONDS_PER_DAY &&
      forall j :: j in estimated ==> p <= LocalDay(zone, estimated[j])
  {
    hide LocalDay;
    assert 0 <= seconds / SECONDS_PER_DAY <= 1;
    assert seconds / SECONDS_PER_DAY == 1 <==> seconds >= SECONDS_PER_DAY;
    var p := LocalDay(zone, estimated[k]);
    assert p - 2 <= day <= p + 1;
  }

  /**
   * A concrete miss: a trip of 1 June 2026 due at 47:59:00, one minute before midnight of 2 June, is predicted 120
   * seconds late. Its one occurrence is out of reach and no delay is recorded.
   */
  lemma LateNightTripIsMissed(t: Tables, delays: map<Key, int>)
    requires t.departures == map[DepartureKey("p", "T", "S", 1) := DepartureRow("svc", 172740, "1", None)]
    requires t.serviceDates == {ServiceDate("p", "svc", JUNE_1)}
    requires NearestDelays(t, "p", WARSAW_2026, map[Key("T", 1) := Wall(JUNE_1, 172860) - 7200], delays)
    ensures FIRST_SERVICE_DAY <= JUNE_1 <= LAST_SERVICE_DAY
    ensures var o := Occurrence("T", "S", 1, 172740, JUNE_1);
      IsScheduled(t, "p", o) && Wall(JUNE_1, 172860) - 7200 - TimeOf(WARSAW_2026, o) == 120
    ensures Key("T", 1) !in delays
  {
    var estimated := map[Key("T", 1) := Wall(JUNE_1, 172860) - 7200];
    assert LocalDay(WARSAW_2026, estimated[Key("T", 1)]) == JUNE_1 + 2;
    forall o | o in Reach(t, "p", WARSAW_2026, estimated) ensures KeyOf(o) != Key("T", 1) {
      assert Key("T", 1) in estimated;
    }
  }

  ghost predicate ConstantOffset(zone: Zone, offset: int) {
    (forall x :: zone.atInstant(x) == offset) && forall x :: zone.atWall(x) == offset
  }

  lemma DayBounds(zone: Zone, instant: int, offset: int)
    requires ConstantOffset(zone, offset)
    ensures var p := LocalDay(zone, instant); Wall(p, 0) - offset <= instant < Wall(p + 1, 0) - offset
  {
    var local := instant + offset;
    assert zone.atInstant(instant) == offset;
    assert local == SECONDS_PER_DAY * (local / SECONDS_PER_DAY) + local % SECONDS_PER_DAY;
  }

  lemma TimeOfShifted(zone: Zone, offset: int, o: Occurrence, shift: int)
    requires ConstantOffset(zone, offset)
    ensures TimeOf(zone, o.(day := o.day + shift)) == Wall(o.day, o.scheduledSeconds) + shift * SECONDS_PER_DAY - offset
  {
  }

  lemma NeighboursInReach(zone: Zone, estimated: map<Key, int>, k: Key, day: Day)
    requires k in estimated && LocalDay(zone, estimated[k]) - 1 <= day <= LocalDay(zone, estimated[k]) + 1
    ensures InReach(zone, estimated, day)
  {
    hide LocalDay;
  }

  /** The recorded distance is at most that to any occurrence in reach. */
  lemma DelayAtMost(t: Tables, slug: Slug, zone: Zone, estimated: map<Key, int>, delays: map<Key, int>, o: Occurrence)
    requires NearestDelays(t, slug, zone, estimated, delays) && o in Reach(t, slug, zone, estimated) &&
             KeyOf(o) in estimated
    ensures KeyOf(o) in delays && Abs(delays[KeyOf(o)]) <= Distance(zone, estimated, o)
  {
    hide Reach, TimeOf;
  }

  /** So it is at most that to the same departure of a neighbouring day. */
  lemma DelayAtMostShifted(t: Tables, slug: Slug, zone: Zone, offset: int, estimated: map<Key, int>,
                           delays: map<Key, int>, o: Occurrence, shift: int)
    requires ConstantOffset(zone, offset) && NearestDelays(t, slug, zone, estimated, delays)
    requires KeyOf(o) in estimated && o.day == LocalDay(zone, estimated[KeyOf(o)])
    requires -1 <= shift <= 1 && IsScheduled(t, slug, o.(day := o.day + shift))
    ensures KeyOf(o) in delays
    ensures var time := Wall(o.day, o.scheduledSeconds) + shift * SECONDS_PER_DAY - offset;
      Abs(delays[KeyOf(o)]) <= Abs(estimated[KeyOf(o)] - time)
  {
    hide TimeOf, InReach, LocalDay, NearestDelays, IsScheduled, ConstantOffset;
    var p := o.(day := o.day + shift);
    NeighboursInReach(zone, estimated, KeyOf(o), p.day);
    DelayAtMost(t, slug, zone, estimated, delays, p);
    TimeOfShifted(zone, offset, o, shift);
  }

  /** A same-day departure that runs on the three days around the prediction is never more than half a day off. */
  lemma HalfDayBound(t: Tables, slug: Slug, zone: Zone, offset: int, estimated: map<Key, int>, delays: map<Key, int>,
                     o: Occurrence)
    requires ConstantOffset(zone, offset) && NearestDelays(t, slug, zone, estimated, delays)
    requires KeyOf(o) in estimated && 0 <= o.scheduledSeconds < SECONDS_PER_DAY
    requires o.day == LocalDay(zone, estimated[KeyOf(o)])
    requires IsScheduled(t, slug, o.(day := o.day - 1)) && IsScheduled(t, slug, o) &&
             IsScheduled(t, slug, o.(day := o.day + 1))
    ensures KeyOf(o) in delays && Abs(delays[KeyOf(o)]) <= 43200
  {
    hide LocalDay, NearestDelays, IsScheduled, ConstantOffset;
    DayBounds(zone, estimated[KeyOf(o)], offset);
    assert o.(day := o.day + 0) == o && o.(day := o.day + -1) == o.(day := o.day - 1);
    DelayAtMostShifted(t, slug, zone, offset, estimated, delays, o, -1);
    DelayAtMostShifted(t, slug, zone, offset, estimated, delays, o, 0);
    DelayAtMostShifted(t, slug, zone, offset, estimated, delays, o, 1);
  }

  // ---------------------------------------------------------------- precedence

  /**
   * One key of an overlay: its last direct delay if there is one; else, if its last prediction has an
   * occurrence in reach, that prediction minus a nearest scheduled time; else nothing.
   */
  lemma OverlayPrecedence(t: Tables, slug: Slug, zone: Zone, feeds: seq<FeedMessage>, rows: OverlayRows, k: Key)
    requires OverlayFrom(t, slug, zone, feeds, rows)
    ensures var row := UpdateKey(slug, k.tripId, k.sequence);
      var direct := LastValue(DirectDelays(OfFeeds(feeds)), k);
      var predicted := LastValue(AbsoluteTimes(OfFeeds(feeds)), k);
      var g := Gather(feeds);
      var reach := Reach(t, slug, zone, g.estimated);
      (direct.Some? ==> row in rows.delays && rows.delays[row] == direct.value) &&
      (direct.None? && predicted.None? ==> row !in rows.delays) &&
      (direct.None? && predicted.Some? ==>
        (row in rows.delays <==> exists o :: o in reach && KeyOf(o) == k) &&
        (row in rows.delays ==>
          exists o :: IsNearest(zone, g.estimated, reach, o) && KeyOf(o) == k &&
            rows.delays[row] == predicted.value - TimeOf(zone, o)))
  {
    hide Reach, OfFeeds, IsNearest, NearestDelays, RowsOf, TimeOf;
    var g := Gather(feeds);
    var nearest :| NearestDelays(t, slug, zone, g.estimated, nearest) &&
      rows == RowsOf(slug, nearest + g.delays, g.cancelled, g.skipped);
    LastWordOfEachKind(OfFeeds(feeds), k);
    DelayRow(slug, nearest + g.delays, g.cancelled, g.skipped, k);
    NearestKeyInReach(t, slug, zone, g.estimated, nearest, k);
    if k in nearest {
      var o := Chosen(t, slug, zone, g.estimated, nearest, k);
    }
  }

  lemma DelayRow(slug: Slug, delays: map<Key, int>, cancelled: set<string>, skipped: set<Key>, k: Key)
    ensures UpdateKey(slug, k.tripId, k.sequence) in RowsOf(slug, delays, cancelled, skipped).delays <==> k in delays
    ensures k in delays ==>
              RowsOf(slug, delays, cancelled, skipped).delays[UpdateKey(slug, k.tripId, k.sequence)] == delays[k]
  {
  }

  lemma NearestKeyInReach(t: Tables, slug: Slug, zone: Zone, estimated: map<Key, int>, delays: map<Key, int>, k: Key)
    requires NearestDelays(t, slug, zone, estimated, delays)
    ensures k in delays <==> k in estimated && exists o :: o in Reach(t, slug, zone, estimated) && KeyOf(o) == k
  {
  }

  // ---------------------------------------------------------------- the round trip

  /** The instant that a wall clock reading denotes. */
  function InstantOfWall(zone: Zone, wall: int): int { wall - zone.atWall(wall) }

  /** What the wall clock shows at an instant. */
  function Reading(zone: Zone, instant: int): int { instant + zone.atInstant(instant) }

  /** The clock does show this reading once; a clock that is put forward skips some. */
  predicate IsShown(zone: Zone, wall: int) { Reading(zone, InstantOfWall(zone, wall)) == wall }

  /** Its reading identifies the instant; a clock that is put back repeats some, and the second time is not meant. */
  predicate IsIdentified(zone: Zone, instant: int) { InstantOfWall(zone, Reading(zone, instant)) == instant }

  /** Adding the derived delay to the chosen occurrence's wall clock. */
  function EstimateFor(zone: Zone, day: Day, seconds: int, predicted: int): int {
    Wall(day, seconds) + (predicted - ScheduledTimestamp(zone, day, seconds))
  }

  /**
   * The estimate is what the clock shows at the predicted instant exactly when the UTC offset then is the one
   * at the scheduled wall time; and it is a reading that the clock shows and that denotes the predicted instant
   * exactly when, besides, that instant is identified by its reading. A reading that the clock skips denotes the
   * predicted instant exactly when it is read with the offset of the scheduled wall time.
   */
  lemma PredictionRoundTrip(zone: Zone, day: Day, seconds: int, predicted: int)
    ensures var estimate := EstimateFor(zone, day, seconds, predicted);
      var sameOffset := zone.atInstant(predicted) == zone.atWall(Wall(day, seconds));
      (estimate == Reading(zone, predicted) <==> sameOffset) &&
      (IsShown(zone, estimate) && InstantOfWall(zone, estimate) == predicted <==>
        sameOffset && IsIdentified(zone, predicted)) &&
      (!IsShown(zone, estimate) ==>
        (InstantOfWall(zone, estimate) == predicted <==> zone.atWall(estimate) == zone.atWall(Wall(day, seconds))))
  {
  }

  /**
   * The clock of the examples: it shows every reading but those of one hour in March, and identifies every instant but
   * those of one hour in October.
   */
  lemma WarsawClock(x: int)
    ensures IsShown(WARSAW_2026, x) <==> !(FORWARD_2026 + 3600 <= x < FORWARD_2026 + 7200)
    ensures IsIdentified(WARSAW_2026, x) <==> !(BACK_2026 <= x < BACK_2026 + 3600)
  {
  }

  /**
   * A departure scheduled for midnight of 29 March 2026, two hours before the clocks are put forward, and predicted
   * for 04:00, an hour after: the estimate reads 03:00, an hour before the predicted instant.
   */
  lemma OffsetChangeBreaksRoundTrip()
    ensures FIRST_SERVICE_DAY <= MARCH_29 <= LAST_SERVICE_DAY
    ensures var predicted := FORWARD_2026 + 3600;
      var estimate := EstimateFor(WARSAW_2026, MARCH_29, 0, predicted);
      Reading(WARSAW_2026, predicted) == Wall(MARCH_29, 4 * 3600) && IsIdentified(WARSAW_2026, predicted) &&
      estimate == Wall(MARCH_29, 3 * 3600) && IsShown(WARSAW_2026, estimate) &&
      InstantOfWall(WARSAW_2026, estimate) == predicted - 3600
  {
  }
}
