/** Shared vocabulary: optional values, failures, and the two ways a keyed table is written. */
module Prelude {

  datatype Option<+T> = None | Some(value: T)

  /** The outcome of code that may raise; every exception of the program is one Failure here. */
  datatype Result<+T> = Failure | Success(value: T)
  {
    predicate IsFailure() { Failure? }

    function PropagateFailure<U>(): Result<U>
      requires Failure?
    {
      Failure
    }

    function Extract(): T
      requires Success?
    {
      value
    }
  }

  function Min(a: int, b: int): int { if a < b then a else b }

  function Abs(a: int): nat { if a < 0 then -a else a }

  // ---------------------------------------------------------------- sequences

  ghost predicate Distinct<T(!new)>(xs: seq<T>) {
    forall i, j :: 0 <= i < j < |xs| ==> xs[i] != xs[j]
  }

  /** xs lists the elements of s, each once, in some order. */
  ghost predicate Enumerates<T(!new)>(xs: seq<T>, s: set<T>) {
    Distinct(xs) && forall x :: x in xs <==> x in s
  }

  lemma {:induction false} EnumerationLength<T(!new)>(xs: seq<T>, s: set<T>)
    requires Enumerates(xs, s)
    ensures |xs| == |s|
  {
    if |xs| == 0 {
      assert forall x :: x in s ==> x in xs;
      assert s == {};
    } else {
      var n := |xs| - 1;
      assert xs[n] in xs;
      forall x ensures x in xs[..n] <==> x in s - {xs[n]} {
        if x in s - {xs[n]} {
          assert x in xs;
          var i :| 0 <= i < |xs| && xs[i] == x;
          assert xs[..n][i] == x;
        }
        if x in xs[..n] {
          var i :| 0 <= i < n && xs[..n][i] == x;
          assert x in xs && xs[i] != xs[n];
        }
      }
      EnumerationLength(xs[..n], s - {xs[n]});
    }
  }

  /** Reading a set, a dict or a table without ORDER BY: any enumeration may come out. */
  method ListSet<T(!new, ==)>(s: set<T>) returns (xs: seq<T>)
    ensures Enumerates(xs, s)
  {
    xs := [];
    var rest := s;
    while rest != {}
      invariant rest <= s
      invariant Distinct(xs)
      invariant forall x :: x in xs <==> x in s - rest
      decreases rest
    {
      var x :| x in rest;
      assert x !in xs;
      xs := xs + [x];
      rest := rest - {x};
    }
  }

  /** There is such an enumeration. */
  lemma {:induction false} ListingExists<T(!new)>(s: set<T>) returns (xs: seq<T>)
    ensures Enumerates(xs, s)
  {
    if s == {} {
      xs := [];
    } else {
      var x :| x in s;
      var rest := ListingExists(s - {x});
      xs := rest + [x];
    }
  }

  function Elements<T>(xs: seq<T>): set<T> { set x | x in xs }

  lemma SubsetOfSameSize<T(!new)>(a: set<T>, b: set<T>)
    requires a <= b && |a| == |b|
    ensures a == b
  {
    assert |b - a| == |b| - |a|;
    assert b == a + (b - a);
  }

  lemma SubsetIsNotLarger<T(!new)>(a: set<T>, b: set<T>)
    requires a <= b
    ensures |a| <= |b|
  {
    assert b == a + (b - a);
  }

  // ---------------------------------------------------------------- keyed writes

  /** INSERT OR REPLACE, and assignment into a dict: rows are written in order, the later one wins. */
  function Upsert<K, V>(m: map<K, V>, items: seq<(K, V)>): map<K, V> {
    if items == [] then m
    else
      var n := |items| - 1;
      Upsert(m, items[..n])[items[n].0 := items[n].1]
  }

  /** Plain INSERT: fails on the first key already present. */
  function InsertAll<K, V>(m: map<K, V>, items: seq<(K, V)>): Result<map<K, V>> {
    if items == [] then Success(m)
    else
      var n := |items| - 1;
      var before :- InsertAll(m, items[..n]);
      if items[n].0 in before then Failure else Success(before[items[n].0 := items[n].1])
  }

  /** The position of the last item with key k, or -1. */
  function LastIndex<K(==), V>(items: seq<(K, V)>, k: K): (i: int)
    ensures -1 <= i < |items|
    ensures 0 <= i ==> items[i].0 == k
    ensures forall j :: i < j < |items| ==> items[j].0 != k
  {
    if items == [] then -1
    else
      var n := |items| - 1;
      if items[n].0 == k then n else LastIndex(items[..n], k)
  }

  function LastValue<K(==), V>(items: seq<(K, V)>, k: K): Option<V> {
    var i := LastIndex(items, k);
    if i < 0 then None else Some(items[i].1)
  }

  function KeysOf<K, V>(items: seq<(K, V)>): set<K> { set i | 0 <= i < |items| :: items[i].0 }

  ghost predicate DistinctKeys<K(!new), V(!new)>(items: seq<(K, V)>) {
    forall i, j :: 0 <= i < j < |items| ==> items[i].0 != items[j].0
  }

  lemma LastValueOfKeys<K, V>(items: seq<(K, V)>, k: K)
    ensures LastValue(items, k).Some? <==> k in KeysOf(items)
  {
    var i := LastIndex(items, k);
    assert 0 <= i ==> items[i].0 in KeysOf(items);
  }

  /** A keyed table after a run of upserts: the last written row of each key, else the old row. */
  lemma {:induction false} UpsertLookup<K, V>(m: map<K, V>, items: seq<(K, V)>, k: K)
    ensures k in Upsert(m, items) <==> k in m || LastValue(items, k).Some?
    ensures LastValue(items, k).Some? ==> Upsert(m, items)[k] == LastValue(items, k).value
    ensures LastValue(items, k).None? && k in m ==> Upsert(m, items)[k] == m[k]
  {
    if items != [] {
      UpsertLookup(m, items[..|items| - 1], k);
    }
  }

  lemma {:induction false} UpsertConcat<K, V>(m: map<K, V>, a: seq<(K, V)>, b: seq<(K, V)>)
    ensures Upsert(m, a + b) == Upsert(Upsert(m, a), b)
  {
    if b == [] {
      assert a + b == a;
    } else {
      var n := |b| - 1;
      assert (a + b)[..|a| + n] == a + b[..n];
      UpsertConcat(m, a, b[..n]);
    }
  }

  lemma UpsertOne<K, V>(m: map<K, V>, items: seq<(K, V)>, k: K, v: V)
    ensures Upsert(m, items + [(k, v)]) == Upsert(m, items)[k := v]
  {
    assert (items + [(k, v)])[..|items|] == items;
  }

  lemma {:induction false} UpsertKeys<K, V>(m: map<K, V>, items: seq<(K, V)>)
    ensures Upsert(m, items).Keys == m.Keys + KeysOf(items)
  {
    if items != [] {
      UpsertKeys(m, items[..|items| - 1]);
      KeysOfLast(items);
    }
  }

  lemma KeysOfLast<K, V>(items: seq<(K, V)>)
    requires items != []
    ensures KeysOf(items) == KeysOf(items[..|items| - 1]) + {items[|items| - 1].0}
  {
    var n := |items| - 1;
    var init := items[..n];
    forall k | k in KeysOf(items) ensures k in KeysOf(init) + {items[n].0} {
      var i :| 0 <= i < |items| && items[i].0 == k;
      assert i < n ==> init[i].0 == k;
    }
    forall k | k in KeysOf(init) ensures k in KeysOf(items) {
      var i :| 0 <= i < n && init[i].0 == k;
      assert items[i].0 == k;
    }
  }

  /** Right bias: upserting on top of a table is merging the keyed rows over it. */
  lemma {:induction false} UpsertIsMerge<K, V>(m: map<K, V>, items: seq<(K, V)>)
    ensures Upsert(m, items) == m + Upsert(map[], items)
  {
    UpsertKeys(m, items);
    UpsertKeys(map[], items);
    forall k | k in Upsert(m, items) ensures Upsert(m, items)[k] == (m + Upsert(map[], items))[k] {
      UpsertLookup(m, items, k);
      UpsertLookup(map[], items, k);
      LastValueOfKeys(items, k);
    }
  }

  lemma DistinctKeysOfLast<K(!new), V(!new)>(items: seq<(K, V)>)
    requires items != []
    ensures var n := |items| - 1;
      DistinctKeys(items) <==> DistinctKeys(items[..n]) && items[n].0 !in KeysOf(items[..n])
  {
    var n := |items| - 1;
    var init := items[..n];
    assert forall i :: 0 <= i < n ==> init[i] == items[i];
    if DistinctKeys(init) && items[n].0 !in KeysOf(init) {
      forall i | 0 <= i < n ensures items[i].0 != items[n].0 {
        assert init[i].0 in KeysOf(init);
      }
    }
  }

  /** Plain INSERT succeeds exactly on fresh, unrepeated keys, and then does what an upsert does. */
  lemma {:induction false} InsertAllExactly<K(!new), V(!new)>(m: map<K, V>, items: seq<(K, V)>)
    ensures InsertAll(m, items).Success? <==> DistinctKeys(items) && KeysOf(items) !! m.Keys
    ensures InsertAll(m, items).Success? ==> InsertAll(m, items).value == Upsert(m, items)
  {
    if items != [] {
      hide DistinctKeys, KeysOf;
      var n := |items| - 1;
      InsertAllExactly(m, items[..n]);
      UpsertKeys(m, items[..n]);
      KeysOfLast(items);
      DistinctKeysOfLast(items);
    }
  }

  // ---------------------------------------------------------------- row by row reading

  /** Read rows in order; f may raise (Failure), drop the row (None) or keep something (Some). */
  function Collect<A, B>(f: A -> Result<Option<B>>, rows: seq<A>): Result<seq<B>> {
    if rows == [] then Success([])
    else
      var n := |rows| - 1;
      var init :- Collect(f, rows[..n]);
      var last :- f(rows[n]);
      Success(match last case None => init case Some(b) => init + [b])
  }

  lemma {:induction false} CollectFails<A, B>(f: A -> Result<Option<B>>, rows: seq<A>)
    ensures Collect(f, rows).Failure? <==> exists i :: 0 <= i < |rows| && f(rows[i]).Failure?
  {
    if rows != [] {
      var n := |rows| - 1;
      CollectFails(f, rows[..n]);
      assert forall i :: 0 <= i < n ==> rows[..n][i] == rows[i];
    }
  }

  lemma CollectOne<A, B>(f: A -> Result<Option<B>>, rows: seq<A>, i: nat)
    requires i < |rows|
    ensures Collect(f, rows[..i + 1]) ==
            (match Collect(f, rows[..i])
             case Failure => Failure
             case Success(init) =>
               match f(rows[i])
               case Failure => Failure
               case Success(last) => Success(match last case None => init case Some(b) => init + [b]))
  {
    assert rows[..i + 1][..i] == rows[..i];
  }

  lemma {:induction false} CollectFailsEarly<A, B>(f: A -> Result<Option<B>>, rows: seq<A>, i: nat)
    requires i <= |rows| && Collect(f, rows[..i]).Failure?
    ensures Collect(f, rows).Failure?
  {
    CollectFails(f, rows[..i]);
    CollectFails(f, rows);
    var j :| 0 <= j < i && f(rows[..i][j]).Failure?;
    assert f(rows[j]).Failure?;
  }

  /** Everything kept comes from some row. */
  lemma {:induction false} CollectedFrom<A, B>(f: A -> Result<Option<B>>, rows: seq<A>, b: B)
    requires Collect(f, rows).Success? && b in Collect(f, rows).value
    ensures exists i :: 0 <= i < |rows| && f(rows[i]) == Success(Some(b))
  {
    if rows != [] {
      var n := |rows| - 1;
      var init := Collect(f, rows[..n]).value;
      if b in init {
        CollectedFrom(f, rows[..n], b);
        var i :| 0 <= i < n && f(rows[..n][i]) == Success(Some(b));
        assert f(rows[i]) == Success(Some(b));
      } else {
        assert f(rows[n]) == Success(Some(b));
      }
    }
  }

  /** Everything f makes of each element, in order. */
  function FlatMap<A, B>(f: A -> seq<B>, xs: seq<A>): seq<B> {
    if xs == [] then [] else FlatMap(f, xs[..|xs| - 1]) + f(xs[|xs| - 1])
  }

  lemma {:induction false} FlatMapConcat<A, B>(f: A -> seq<B>, xs: seq<A>, ys: seq<A>)
    ensures FlatMap(f, xs + ys) == FlatMap(f, xs) + FlatMap(f, ys)
  {
    if ys == [] {
      assert xs + ys == xs;
    } else {
      var n := |ys| - 1;
      assert (xs + ys)[..|xs| + n] == xs + ys[..n];
      FlatMapConcat(f, xs, ys[..n]);
    }
  }

  lemma FlatMapOne<A, B>(f: A -> seq<B>, x: A)
    ensures FlatMap(f, [x]) == f(x)
  {
    assert [x][..0] == [];
    assert FlatMap(f, [x]) == [] + f(x);
  }

  lemma FlatMapNext<A, B>(f: A -> seq<B>, xs: seq<A>, i: nat)
    requires i < |xs|
    ensures FlatMap(f, xs[..i + 1]) == FlatMap(f, xs[..i]) + f(xs[i])
  {
    assert xs[..i + 1][..i] == xs[..i];
  }

  lemma {:induction false} FlatMapMember<A, B>(f: A -> seq<B>, xs: seq<A>, b: B)
    ensures b in FlatMap(f, xs) <==> exists i :: 0 <= i < |xs| && b in f(xs[i])
  {
    if xs != [] {
      var n := |xs| - 1;
      FlatMapMember(f, xs[..n], b);
      assert forall i :: 0 <= i < n ==> xs[..n][i] == xs[i];
    }
  }
}
