/** The relational steps of the departure query on row lists: filter, outer join, order, limit. */
module Sql {
  import opened Prelude

  function Filter<T>(p: T -> bool, rows: seq<T>): seq<T> {
    if rows == [] then []
    else Filter(p, rows[..|rows| - 1]) + if p(rows[|rows| - 1]) then [rows[|rows| - 1]] else []
  }

  lemma {:induction false} FilterMember<T>(p: T -> bool, rows: seq<T>, x: T)
    ensures x in Filter(p, rows) <==> x in rows && p(x)
  {
    if rows != [] {
      var n := |rows| - 1;
      FilterMember(p, rows[..n], x);
      assert rows == rows[..n] + [rows[n]];
    }
  }

  lemma {:induction false} FilterDistinct<T(!new)>(p: T -> bool, rows: seq<T>)
    requires Distinct(rows)
    ensures Distinct(Filter(p, rows))
  {
    if rows != [] {
      var n := |rows| - 1;
      FilterDistinct(p, rows[..n]);
      forall i | 0 <= i < |Filter(p, rows[..n])| ensures Filter(p, rows[..n])[i] != rows[n] {
        var x := Filter(p, rows[..n])[i];
        FilterMember(p, rows[..n], x);
        var j :| 0 <= j < n && rows[..n][j] == x;
        assert rows[j] == x;
      }
    }
  }

  /** The matches of a LEFT JOIN: a row of NULLs when there is none. */
  function Outer<T>(matches: seq<T>): seq<Option<T>> {
    if matches == [] then [None] else seq(|matches|, i requires 0 <= i < |matches| => Some(matches[i]))
  }

  /** A LEFT JOIN loses no row and no match: NULLs stand in exactly where nothing matches. */
  lemma OuterLosesNothing<T(!new)>(matches: seq<T>)
    ensures None in Outer(matches) <==> matches == []
    ensures forall x :: Some(x) in Outer(matches) <==> x in matches
    ensures |Outer(matches)| == if matches == [] then 1 else |matches|
  {
    var outer := Outer(matches);
    forall x | x in matches ensures Some(x) in outer {
      var i :| 0 <= i < |matches| && matches[i] == x;
      assert outer[i] == Some(x);
    }
  }

  /** A join on a full primary key yields the one row that has it, if any. */
  lemma KeyLookup<T(!new)>(p: T -> bool, rows: seq<T>, x: T)
    requires Distinct(rows) && x in rows && p(x)
    requires forall y :: y in rows && p(y) ==> y == x
    ensures Filter(p, rows) == [x]
  {
    FilterMember(p, rows, x);
    FilterDistinct(p, rows);
    var found := Filter(p, rows);
    forall y ensures y in found <==> y in {x} {
      FilterMember(p, rows, y);
    }
    EnumerationLength(found, {x});
    assert found[0] in found;
  }

  lemma NoMatch<T(!new)>(p: T -> bool, rows: seq<T>)
    requires forall y :: y in rows ==> !p(y)
    ensures Filter(p, rows) == []
  {
    var found := Filter(p, rows);
    if found != [] {
      FilterMember(p, rows, found[0]);
      assert false;
    }
  }

  lemma {:induction false} FlatMapDistinct<A(!new), B(!new)>(f: A -> seq<B>, xs: seq<A>)
    requires Distinct(xs) && forall x :: x in xs ==> Distinct(f(x))
    requires forall x, y, b :: x in xs && y in xs && b in f(x) && b in f(y) ==> x == y
    ensures Distinct(FlatMap(f, xs))
  {
    if xs != [] {
      var n := |xs| - 1;
      var init, last := FlatMap(f, xs[..n]), f(xs[n]);
      assert forall i :: 0 <= i < n ==> xs[..n][i] == xs[i] && xs[i] in xs;
      FlatMapDistinct(f, xs[..n]);
      forall i, j | 0 <= i < |init| && 0 <= j < |last| ensures init[i] != last[j] {
        FlatMapMember(f, xs[..n], init[i]);
        var m :| 0 <= m < n && init[i] in f(xs[..n][m]);
        assert xs[m] in xs && xs[n] in xs && xs[m] != xs[n];
      }
    }
  }

  // ---------------------------------------------------------------- ORDER BY

  ghost predicate IsTotalPreorder<T(!new)>(le: (T, T) -> bool) {
    (forall x, y :: le(x, y) || le(y, x)) && forall x, y, z :: le(x, y) && le(y, z) ==> le(x, z)
  }

  ghost predicate Sorted<T(!new)>(le: (T, T) -> bool, rows: seq<T>) {
    forall i, j :: 0 <= i < j < |rows| ==> le(rows[i], rows[j])
  }

  /** ordered is rows in some order that ORDER BY accepts. */
  ghost predicate IsOrdering<T(!new)>(le: (T, T) -> bool, rows: seq<T>, ordered: seq<T>) {
    multiset(ordered) == multiset(rows) && Sorted(le, ordered)
  }

  function Insert<T>(le: (T, T) -> bool, rows: seq<T>, x: T): seq<T> {
    if rows == [] || le(rows[|rows| - 1], x) then rows + [x]
    else Insert(le, rows[..|rows| - 1], x) + [rows[|rows| - 1]]
  }

  function Sort<T>(le: (T, T) -> bool, rows: seq<T>): seq<T> {
    if rows == [] then [] else Insert(le, Sort(le, rows[..|rows| - 1]), rows[|rows| - 1])
  }

  lemma {:induction false} InsertKeepsRows<T(!new)>(le: (T, T) -> bool, rows: seq<T>, x: T)
    ensures multiset(Insert(le, rows, x)) == multiset(rows) + multiset{x}
  {
    if rows != [] && !le(rows[|rows| - 1], x) {
      InsertKeepsRows(le, rows[..|rows| - 1], x);
      assert rows == rows[..|rows| - 1] + [rows[|rows| - 1]];
    }
  }

  lemma {:induction false} InsertKeepsOrder<T(!new)>(le: (T, T) -> bool, rows: seq<T>, x: T)
    requires IsTotalPreorder(le) && Sorted(le, rows)
    ensures Sorted(le, Insert(le, rows, x))
  {
    if rows == [] || le(rows[|rows| - 1], x) {
      forall i | 0 <= i < |rows| ensures le(rows[i], x) {
        assert i < |rows| - 1 ==> le(rows[i], rows[|rows| - 1]);
      }
    } else {
      var n := |rows| - 1;
      var init := rows[..n];
      InsertKeepsOrder(le, init, x);
      InsertKeepsRows(le, init, x);
      var r := Insert(le, init, x);
      forall i | 0 <= i < |r| ensures le(r[i], rows[n]) {
        InsertedFrom(init, x, r, i);
      }
    }
  }

  lemma InsertedFrom<T(!new)>(init: seq<T>, x: T, r: seq<T>, i: nat)
    requires multiset(r) == multiset(init) + multiset{x} && i < |r|
    ensures r[i] == x || r[i] in init
  {
    assert r[i] in multiset(r);
  }

  lemma {:induction false} SortOrders<T(!new)>(le: (T, T) -> bool, rows: seq<T>)
    requires IsTotalPreorder(le)
    ensures IsOrdering(le, rows, Sort(le, rows))
  {
    if rows != [] {
      var n := |rows| - 1;
      SortOrders(le, rows[..n]);
      InsertKeepsRows(le, Sort(le, rows[..n]), rows[n]);
      InsertKeepsOrder(le, Sort(le, rows[..n]), rows[n]);
      assert rows == rows[..n] + [rows[n]];
    }
  }

  lemma {:induction false} DistinctMultiset<T(!new)>(xs: seq<T>)
    ensures Distinct(xs) <==> forall x :: multiset(xs)[x] <= 1
  {
    if xs != [] {
      var n := |xs| - 1;
      DistinctMultiset(xs[..n]);
      assert xs == xs[..n] + [xs[n]];
      assert forall i :: 0 <= i < n ==> xs[..n][i] == xs[i];
      if Distinct(xs) {
        assert xs[n] !in multiset(xs[..n]) by {
          assert forall i :: 0 <= i < n ==> xs[i] != xs[n];
        }
      } else if Distinct(xs[..n]) {
        var i :| 0 <= i < n && xs[i] == xs[n];
        assert xs[n] in xs[..n];
        assert multiset(xs)[xs[n]] >= 2;
      } else {
        var x :| multiset(xs[..n])[x] > 1;
        assert multiset(xs)[x] > 1;
      }
    }
  }

  /** Reordering a duplicate-free list lists the same set. */
  lemma OrderingEnumerates<T(!new)>(rows: seq<T>, ordered: seq<T>, s: set<T>)
    requires multiset(ordered) == multiset(rows)
    ensures Enumerates(rows, s) <==> Enumerates(ordered, s)
  {
    DistinctMultiset(rows);
    DistinctMultiset(ordered);
    assert forall x :: (x in rows <==> x in multiset(rows)) && (x in ordered <==> x in multiset(ordered));
  }

  // ---------------------------------------------------------------- LIMIT

  /** How many of n rows LIMIT count keeps; SQLite reads a negative count as no limit. */
  function Kept(count: int, n: nat): (k: nat)
    ensures k <= n
  {
    if count < 0 then n else Min(count, n)
  }

  /** The first count elements of s, if it has so many; all of them if it has fewer or count is negative. */
  ghost predicate IsFullFor<T(!new)>(s: set<T>, count: int, rows: seq<T>) {
    (count >= 0 ==> |rows| <= count) && (count < 0 || |rows| < count ==> forall x :: x in s ==> x in rows)
  }

  /** rows are the first rows of s under the order: nothing left out sorts strictly before one kept. */
  ghost predicate IsTop<T(!new)>(le: (T, T) -> bool, s: set<T>, count: int, rows: seq<T>) {
    Distinct(rows) && Sorted(le, rows) && (forall x :: x in rows ==> x in s) && IsFullFor(s, count, rows) &&
    forall r, x :: r in rows && x in s && x !in rows ==> le(r, x)
  }

  /** So there are min(count, n) rows of n. */
  lemma TopLength<T(!new)>(le: (T, T) -> bool, s: set<T>, count: int, rows: seq<T>)
    requires IsTop(le, s, count, rows)
    ensures |rows| == if count < 0 || |s| < count then |s| else count
  {
    EnumerationLength(rows, Elements(rows));
    SubsetIsNotLarger(Elements(rows), s);
    if count < 0 || |rows| < count { assert Elements(rows) == s; }
  }

  /** ORDER BY ... LIMIT returns a top of the result set. */
  lemma LimitOfOrdering<T(!new)>(le: (T, T) -> bool, rows: seq<T>, s: set<T>, ordered: seq<T>, count: int)
    requires Enumerates(rows, s) && IsOrdering(le, rows, ordered)
    ensures |ordered| == |s|
    ensures IsTop(le, s, count, ordered[..Kept(count, |s|)])
  {
    OrderingEnumerates(rows, ordered, s);
    EnumerationLength(ordered, s);
    var k := Kept(count, |s|);
    var kept := ordered[..k];
    assert forall m :: 0 <= m < k ==> kept[m] == ordered[m] && kept[m] in kept;
    assert k == |s| ==> kept == ordered;
    forall r, x | r in kept && x in s && x !in kept ensures le(r, x) {
      var i :| 0 <= i < k && kept[i] == r;
      assert x in ordered;
      var j :| 0 <= j < |ordered| && ordered[j] == x;
    }
  }

  /** Every top is what some admissible order returns. */
  lemma TopIsSomeLimit<T(!new)>(le: (T, T) -> bool, rows: seq<T>, s: set<T>, top: seq<T>, count: int)
      returns (ordered: seq<T>)
    requires IsTotalPreorder(le) && Enumerates(rows, s) && IsTop(le, s, count, top)
    ensures IsOrdering(le, rows, ordered) && |ordered| == |s| && top == ordered[..Kept(count, |s|)]
  {
    var others := Filter(x => x !in top, rows);
    forall x ensures x in others <==> x in s && x !in top {
      FilterMember(x => x !in top, rows, x);
    }
    FilterDistinct(x => x !in top, rows);
    var rest := Sort(le, others);
    SortOrders(le, others);
    OrderingEnumerates(others, rest, Elements(others));
    ordered := top + rest;
    SameElementsOnce(rows, top, rest);
    forall i, j | 0 <= i < j < |ordered| ensures le(ordered[i], ordered[j]) {
      if i < |top| && j >= |top| {
        assert ordered[i] in top && ordered[j] in rest;
      }
    }
    OrderingEnumerates(rows, ordered, s);
    EnumerationLength(ordered, s);
    TopLength(le, s, count, top);
  }

  lemma SameElementsOnce<T(!new)>(rows: seq<T>, top: seq<T>, rest: seq<T>)
    requires Distinct(rows) && Distinct(top) && Distinct(rest)
    requires forall x :: x in top ==> x !in rest
    requires forall x :: x in rows <==> x in top || x in rest
    ensures multiset(top + rest) == multiset(rows)
  {
    DistinctMultiset(rows);
    DistinctMultiset(top);
    DistinctMultiset(rest);
    forall x ensures multiset(top + rest)[x] == multiset(rows)[x] {
      assert multiset(top + rest)[x] == multiset(top)[x] + multiset(rest)[x];
      assert (x in rows <==> x in multiset(rows)) && (x in top <==> x in multiset(top)) &&
             (x in rest <==> x in multiset(rest));
    }
  }

  /** The elements that sort strictly before x. */
  ghost function Ahead<T(!new)>(le: (T, T) -> bool, s: set<T>, x: T): set<T> { set y | y in s && !le(x, y) }

  /** In a top, everything strictly before a row comes before it. */
  lemma AheadComesFirst<T(!new)>(le: (T, T) -> bool, s: set<T>, count: int, rows: seq<T>, j: nat)
    requires IsTotalPreorder(le) && IsTop(le, s, count, rows) && j < |rows|
    ensures forall y :: y in Ahead(le, s, rows[j]) ==> y in rows[..j]
    ensures |Ahead(le, s, rows[j])| <= j
  {
    var before := rows[..j];
    forall y | y in Ahead(le, s, rows[j]) ensures y in before {
      assert rows[j] in rows && le(rows[j], rows[j]);
      assert y in rows;
      var i :| 0 <= i < |rows| && rows[i] == y;
      assert i < j;
      assert before[i] == y;
    }
    assert Distinct(before);
    EnumerationLength(before, Elements(before));
    SubsetIsNotLarger(Ahead(le, s, rows[j]), Elements(before));
  }

  /** A row with room for it and for everything strictly before it is in some top. */
  lemma TopWith<T(!new)>(le: (T, T) -> bool, s: set<T>, count: int, x: T) returns (rows: seq<T>, j: nat)
    requires IsTotalPreorder(le) && x in s && (count < 0 || |Ahead(le, s, x)| < count)
    ensures IsTop(le, s, count, rows) && j < |rows| && rows[j] == x
  {
    var ahead := Ahead(le, s, x);
    assert le(x, x);
    var first := SortedListing(le, ahead);
    var rest := SortedListing(le, s - ahead - {x});
    var ordered := first + [x] + rest;
    j := |first|;
    EnumerationLength(first, ahead);
    forall y ensures y in ordered <==> y in s {
      assert y in ordered <==> y in first || y == x || y in rest;
    }
    forall i, k | 0 <= i < k < |ordered| ensures ordered[i] != ordered[k] && le(ordered[i], ordered[k]) {
      InOrder(le, s, x, first, rest, i, k);
    }
    LimitOfOrdering(le, ordered, s, ordered, count);
    rows := ordered[..Kept(count, |s|)];
    EnumerationLength(ordered, s);
  }

  lemma SortedListing<T(!new)>(le: (T, T) -> bool, s: set<T>) returns (rows: seq<T>)
    requires IsTotalPreorder(le)
    ensures Enumerates(rows, s) && Sorted(le, rows)
  {
    var listed := ListingExists(s);
    rows := Sort(le, listed);
    SortOrders(le, listed);
    OrderingEnumerates(listed, rows, s);
  }

  lemma InOrder<T(!new)>(le: (T, T) -> bool, s: set<T>, x: T, first: seq<T>, rest: seq<T>, i: nat, k: nat)
    requires IsTotalPreorder(le) && x in s && Enumerates(first, Ahead(le, s, x)) && Sorted(le, first)
    requires Enumerates(rest, s - Ahead(le, s, x) - {x}) && Sorted(le, rest)
    requires i < k < |first + [x] + rest|
    ensures var ordered := first + [x] + rest; ordered[i] != ordered[k] && le(ordered[i], ordered[k])
  {
    var ordered := first + [x] + rest;
    var n := |first|;
    assert i < n ==> ordered[i] == first[i] && first[i] in first;
    assert k < n ==> ordered[k] == first[k];
    assert i > n ==> ordered[i] == rest[i - n - 1];
    assert k > n ==> ordered[k] == rest[k - n - 1] && rest[k - n - 1] in rest;
    assert le(x, x);
  }
}
