/**
 * The order that README.md:41 of the repository documents for departures, lowest delay first and then scheduled time,
 * against the order by estimated time that the query has.
 */
module DocumentedOrder {
  import opened Prelude
  import opened Text
  import opened Schema
  import opened Sql
  import opened Realtime
  import opened DepartureQuery
  import LiveView
  import Predictions

  function ScheduledWall(r: Joined): int { Wall(r.sd.day, r.d.1.scheduledSeconds) }

  predicate DocumentedNotAfter(a: Joined, b: Joined) {
    DelayOf(a) < DelayOf(b) || (DelayOf(a) == DelayOf(b) && ScheduledWall(a) <= ScheduledWall(b))
  }

  const DOCUMENTED: (Joined, Joined) -> bool := (a, b) => DocumentedNotAfter(a, b)

  /** Of the rows within the limit none has a longer delayed one ahead of it. */
  ghost predicate NoLongerDelayAhead(s: set<Joined>, count: int) {
    forall a, b :: b in s && a in Ahead(ORDER, s, b) && (count < 0 || |Ahead(ORDER, s, b)| < count) ==>
      DelayOf(a) <= DelayOf(b)
  }

  /** Rows that the query leaves unordered belong to one trip and sequence, so they have one delay. */
  lemma TiesAgree(t: Tables, q: Query, a: Joined, b: Joined)
    requires a in QualifyingRows(t, q) && b in QualifyingRows(t, q) && ORDER(a, b)
    requires !ORDER(b, a) ==> DelayOf(a) <= DelayOf(b)
    ensures DOCUMENTED(a, b)
  {
    hide QualifyingRows, Wall, DelayOf;
    if ORDER(b, a) {
      SameTrip(a, b);
      LiveView.DelayAppliesToEveryDate(t, q, a, b);
    }
  }

  lemma SameTrip(a: Joined, b: Joined)
    requires ORDER(a, b) && ORDER(b, a)
    ensures a.d.0.tripId == b.d.0.tripId && a.d.0.sequence == b.d.0.sequence
  {
    if a.d.0.tripId != b.d.0.tripId { TextLeAntisymmetric(a.d.0.tripId, b.d.0.tripId); }
  }

  /**
   * Every result is in the documented order exactly when, of the rows that it has room for, none has a longer
   * delayed one ahead of it by estimated time.
   */
  lemma DocumentedExactly(st: Storage, t: Tables, q: Query)
    requires Stores(st, t)
    ensures (forall rows :: IsResult(st, q, rows) ==> Sorted(DOCUMENTED, rows)) <==>
            NoLongerDelayAhead(QualifyingRows(t, q), q.count)
  {
    hide Stores, IsResult, QualifyingRows, DOCUMENTED, DelayOf;
    var s := QualifyingRows(t, q);
    OrderIsTotalPreorder();
    if NoLongerDelayAhead(s, q.count) {
      forall rows | IsResult(st, q, rows) ensures Sorted(DOCUMENTED, rows) {
        ResultIsTop(st, t, q, rows);
        ShortDelaysFirst(t, q, rows);
      }
    }
    if forall rows :: IsResult(st, q, rows) ==> Sorted(DOCUMENTED, rows) {
      forall a, b | b in s && a in Ahead(ORDER, s, b) && (q.count < 0 || |Ahead(ORDER, s, b)| < q.count)
        ensures DelayOf(a) <= DelayOf(b)
      {
        var rows, j := TopWith(ORDER, s, q.count, b);
        TopIsResult(st, t, q, rows);
        AheadComesFirst(ORDER, s, q.count, rows, j);
        var i :| 0 <= i < j && rows[i] == a;
        DocumentedDelays(rows, i, j);
      }
    }
  }

  lemma DocumentedDelays(rows: seq<Joined>, i: nat, j: nat)
    requires Sorted(DOCUMENTED, rows) && i < j < |rows|
    ensures DelayOf(rows[i]) <= DelayOf(rows[j])
  {
    assert DOCUMENTED(rows[i], rows[j]);
  }

  lemma ShortDelaysFirst(t: Tables, q: Query, rows: seq<Joined>)
    requires IsTop(ORDER, QualifyingRows(t, q), q.count, rows) && IsTotalPreorder(ORDER)
    requires NoLongerDelayAhead(QualifyingRows(t, q), q.count)
    ensures Sorted(DOCUMENTED, rows)
  {
    hide QualifyingRows, DOCUMENTED, ORDER, DelayOf;
    var s := QualifyingRows(t, q);
    forall i, j | 0 <= i < j < |rows| ensures DOCUMENTED(rows[i], rows[j]) {
      assert rows[i] in rows && rows[j] in rows;
      AheadComesFirst(ORDER, s, q.count, rows, j);
      if !ORDER(rows[j], rows[i]) { assert rows[i] in Ahead(ORDER, s, rows[j]); }
      TiesAgree(t, q, rows[i], rows[j]);
    }
  }

  // ---------------------------------------------------------------- a concrete result

  /** On 1 June 2026 trip A is due at 08:00 and ten minutes late, trip B at 08:20 and on time. */
  ghost predicate IsExample(t: Tables) {
    t.stops == map[StopKey("p", "S") := StopRow("Stop", None, None, None)] &&
    t.departures == map[
      DepartureKey("p", "A", "S", 1) := DepartureRow("svc", 28800, "1", None),
      DepartureKey("p", "B", "S", 1) := DepartureRow("svc", 30000, "1", None)] &&
    t.serviceDates == {EXAMPLE_DATE} && t.delays == map[UpdateKey("p", "A", 1) := 600] &&
    t.cancellations == {} && t.skips == {}
  }

  const EXAMPLE_DATE := ServiceDate("p", "svc", Predictions.JUNE_1)

  /** It is seven in the morning. */
  ghost predicate AsksExample(q: Query) {
    q.slug == "p" && q.name.None? && q.today == Predictions.JUNE_1 && q.secondsToday == 25200 && q.count >= 2
  }

  function RowA(t: Tables): Joined
    requires IsExample(t)
  {
    PairRow(t, DepartureKey("p", "A", "S", 1), EXAMPLE_DATE)
  }

  function RowB(t: Tables): Joined
    requires IsExample(t)
  {
    PairRow(t, DepartureKey("p", "B", "S", 1), EXAMPLE_DATE)
  }

  lemma ExampleRows(t: Tables)
    requires IsExample(t)
    ensures RowA(t) != RowB(t) && !ORDER(RowB(t), RowA(t)) && !DOCUMENTED(RowA(t), RowB(t))
    ensures DelayOf(RowA(t)) == 600 && DelayOf(RowB(t)) == 0
  {
  }

  lemma OnlyTwoQualify(t: Tables, q: Query)
    requires IsExample(t) && AsksExample(q)
    ensures QualifyingRows(t, q) == {RowA(t), RowB(t)}
  {
    forall r ensures r in QualifyingRows(t, q) <==> r in {RowA(t), RowB(t)} {
      QualifyingRowMeaning(t, q, r);
    }
  }

  lemma TopOfTwo(a: Joined, b: Joined, count: int, rows: seq<Joined>)
    requires IsTop(ORDER, {a, b}, count, rows) && a != b && !ORDER(b, a) && count >= 2
    ensures rows == [a, b]
  {
    hide ORDER;
    TopLength(ORDER, {a, b}, count, rows);
    assert |{a, b}| == 2;
    assert rows[0] in rows && rows[1] in rows;
    assert ORDER(rows[0], rows[1]);
  }

  /** Every result of the example lists A, late as it is, before B: the documentation wants B first. */
  lemma DelayedDepartureComesFirst(st: Storage, t: Tables, q: Query, rows: seq<Joined>)
    requires Stores(st, t) && IsResult(st, q, rows) && IsExample(t) && AsksExample(q)
    ensures rows == [RowA(t), RowB(t)] && DelayOf(rows[0]) == 600 && DelayOf(rows[1]) == 0
    ensures !Sorted(DOCUMENTED, rows)
  {
    hide Stores, IsResult, QualifyingRows, DOCUMENTED, ORDER, RowA, RowB, DelayOf;
    ResultIsTop(st, t, q, rows);
    OnlyTwoQualify(t, q);
    ExampleRows(t);
    TopOfTwo(RowA(t), RowB(t), q.count, rows);
    assert !DOCUMENTED(rows[0], rows[1]);
  }
}
