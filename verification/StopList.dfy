/** stops() of app/repositories/transit_queries.py, and the startup normalisation of stored names. */
module StopList {
  import opened Prelude
  import opened Text
  import opened StopName
  import opened Schema
  import opened LikePattern
  import opened Sql

  type StopRec = (StopKey, StopRow)

  datatype StopModel = StopModel(
    id: string, name: string, latitude: Option<string>, longitude: Option<string>, code: Option<string>)

  const FILTERED_LIMIT: int := 500
  const FULL_LIMIT: int := 5000

  /** A query that is missing or empty filters nothing. */
  predicate IsFiltered(query: Option<string>) { query.Some? && query.value != "" }

  function MatchingStops(t: Tables, slug: Slug, query: Option<string>, fold: string -> string): set<StopRec> {
    set k | k in t.stops && k.slug == slug &&
            (!IsFiltered(query) || Like("%" + fold(Strip(query.value)) + "%", fold(t.stops[k].name)))
         :: (k, t.stops[k])
  }

  function LimitFor(query: Option<string>): int { if IsFiltered(query) then FILTERED_LIMIT else FULL_LIMIT }

  /** ORDER BY stop_name, stop_id. */
  predicate NotAfter(a: StopRec, b: StopRec) {
    if a.1.name == b.1.name then TextLe(a.0.stopId, b.0.stopId) else TextLe(a.1.name, b.1.name)
  }

  const ORDER: (StopRec, StopRec) -> bool := (a, b) => NotAfter(a, b)

  lemma OrderIsTotalPreorder()
    ensures IsTotalPreorder(ORDER)
  {
    forall a, b ensures ORDER(a, b) || ORDER(b, a) {
      TextLeTotal(a.0.stopId, b.0.stopId);
      TextLeTotal(a.1.name, b.1.name);
    }
    forall a, b, c | ORDER(a, b) && ORDER(b, c) ensures ORDER(a, c) {
      NotAfterTransitive(a, b, c);
    }
  }

  lemma NotAfterTransitive(a: StopRec, b: StopRec, c: StopRec)
    requires NotAfter(a, b) && NotAfter(b, c)
    ensures NotAfter(a, c)
  {
    var x, y, z := a.1.name, b.1.name, c.1.name;
    if x == y == z {
      TextLeTransitive(a.0.stopId, b.0.stopId, c.0.stopId);
    } else if x != y && y != z {
      TextLeTransitive(x, y, z);
      if x == z { TextLeAntisymmetric(x, y); }
    }
  }

  function NameOf(r: StopRec): string { Normalize(r.1.name) }

  function ModelOf(r: StopRec): StopModel {
    StopModel(r.0.stopId, NameOf(r), r.1.latitude, r.1.longitude, r.1.code)
  }

  /** The rows that are the first with their normalised name. */
  function Firsts(rows: seq<StopRec>): seq<StopRec> {
    if rows == [] then []
    else
      var n := |rows| - 1;
      Firsts(rows[..n]) + if exists i :: 0 <= i < n && NameOf(rows[i]) == NameOf(rows[n]) then [] else [rows[n]]
  }

  predicate IsFirst(rows: seq<StopRec>, i: nat) {
    i < |rows| && forall j :: 0 <= j < i ==> NameOf(rows[j]) != NameOf(rows[i])
  }

  lemma IsFirstInPrefix(rows: seq<StopRec>, n: nat, i: nat)
    requires i < n <= |rows|
    ensures IsFirst(rows[..n], i) <==> IsFirst(rows, i)
  {
  }

  lemma {:induction false} FirstsAreFirst(rows: seq<StopRec>, r: StopRec)
    ensures r in Firsts(rows) <==> exists i: nat :: IsFirst(rows, i) && rows[i] == r
  {
    hide IsFirst, NameOf;
    FirstBounded(rows);
    if rows != [] {
      var n := |rows| - 1;
      var init := rows[..n];
      FirstsAreFirst(init, r);
      LastIsFirst(rows);
      if i: nat :| IsFirst(rows, i) && rows[i] == r && i < n {
        IsFirstInPrefix(rows, n, i);
        assert init[i] == r;
      }
      if r in Firsts(init) {
        FirstBounded(init);
        var i: nat :| IsFirst(init, i) && init[i] == r;
        IsFirstInPrefix(rows, n, i);
        assert rows[i] == r;
      }
    }
  }

  lemma LastIsFirst(rows: seq<StopRec>)
    requires rows != []
    ensures var n := |rows| - 1;
      IsFirst(rows, n) <==> !exists i :: 0 <= i < n && NameOf(rows[i]) == NameOf(rows[n])
  {
  }

  lemma FirstBounded(rows: seq<StopRec>)
    ensures forall i: nat :: IsFirst(rows, i) ==> i < |rows|
  {
  }

  lemma {:induction false} FirstsLoseNoName(rows: seq<StopRec>, i: nat)
    requires i < |rows|
    ensures exists r :: r in Firsts(rows) && NameOf(r) == NameOf(rows[i])
  {
    hide NameOf;
    var n := |rows| - 1;
    if i < n {
      FirstsLoseNoName(rows[..n], i);
      var r :| r in Firsts(rows[..n]) && NameOf(r) == NameOf(rows[..n][i]);
      assert r in Firsts(rows);
    } else if j :| 0 <= j < n && NameOf(rows[j]) == NameOf(rows[n]) {
      FirstsLoseNoName(rows[..n], j);
      var r :| r in Firsts(rows[..n]) && NameOf(r) == NameOf(rows[..n][j]);
      assert r in Firsts(rows);
    } else {
      assert rows[n] in Firsts(rows);
    }
  }

  lemma {:induction false} FirstsDistinctNames(rows: seq<StopRec>)
    ensures forall i, j :: 0 <= i < j < |Firsts(rows)| ==> NameOf(Firsts(rows)[i]) != NameOf(Firsts(rows)[j])
  {
    hide NameOf;
    if rows != [] {
      var n := |rows| - 1;
      var init := Firsts(rows[..n]);
      FirstsDistinctNames(rows[..n]);
      if !exists i :: 0 <= i < n && NameOf(rows[i]) == NameOf(rows[n]) {
        forall i | 0 <= i < |init| ensures NameOf(init[i]) != NameOf(rows[n]) {
          FirstsAreFirst(rows[..n], init[i]);
          var j: nat :| IsFirst(rows[..n], j) && rows[..n][j] == init[i];
          assert rows[j] == init[i];
        }
      }
    }
  }

  /** The de-duplicating loop. */
  method Deduplicate(rows: seq<StopRec>) returns (result: seq<StopModel>)
    ensures |result| == |Firsts(rows)|
    ensures forall i :: 0 <= i < |result| ==> result[i] == ModelOf(Firsts(rows)[i])
  {
    hide NameOf, Normalize;
    var seen: set<string> := {};
    result := [];
    assert rows[..|rows|] == rows;
    for i := 0 to |rows|
      invariant forall name :: name in seen <==> exists j :: 0 <= j < i && NameOf(rows[j]) == name
      invariant |result| == |Firsts(rows[..i])|
      invariant forall j :: 0 <= j < |result| ==> result[j] == ModelOf(Firsts(rows[..i])[j])
    {
      assert rows[..i + 1][..i] == rows[..i];
      var name := NameOf(rows[i]);
      if name in seen {
        continue;
      }
      seen := seen + {name};
      result := result + [ModelOf(rows[i])];
    }
  }

  lemma {:induction false} FirstsKeepOrder(rows: seq<StopRec>)
    ensures forall i, j, a: nat, b: nat |
              0 <= i < j < |Firsts(rows)| && IsFirst(rows, a) && IsFirst(rows, b) && rows[a] == Firsts(rows)[i] &&
              rows[b] == Firsts(rows)[j] :: a < b
  {
    hide NameOf, IsFirst;
    if rows != [] {
      var n := |rows| - 1;
      var init := rows[..n];
      FirstsKeepOrder(init);
      LastIsFirst(rows);
      FirstBounded(rows);
      forall i, j, a: nat, b: nat |
        0 <= i < j < |Firsts(rows)| && IsFirst(rows, a) && IsFirst(rows, b) && rows[a] == Firsts(rows)[i] &&
        rows[b] == Firsts(rows)[j]
        ensures a < b
      {
        if j < |Firsts(init)| {
          PositionOfFirst(rows, Firsts(init)[j], b);
          PositionOfFirst(rows, Firsts(init)[i], a);
          IsFirstInPrefix(rows, n, a);
          IsFirstInPrefix(rows, n, b);
          assert init[a] == Firsts(init)[i] && init[b] == Firsts(init)[j];
        } else {
          PositionOfFirst(rows, Firsts(init)[i], a);
          FirstsOfOneName(rows, b, n);
        }
      }
    }
  }

  /** The first row of an earlier name is an earlier row. */
  lemma PositionOfFirst(rows: seq<StopRec>, r: StopRec, a: nat)
    requires rows != [] && IsFirst(rows, a) && rows[a] == r && r in Firsts(rows[..|rows| - 1])
    ensures a < |rows| - 1
  {
    hide NameOf;
    var n := |rows| - 1;
    FirstsAreFirst(rows[..n], r);
    var i: nat :| IsFirst(rows[..n], i) && rows[..n][i] == r;
    assert rows[i] == r;
  }

  lemma FirstsOfOneName(rows: seq<StopRec>, a: nat, b: nat)
    requires IsFirst(rows, a) && IsFirst(rows, b) && NameOf(rows[a]) == NameOf(rows[b])
    ensures a == b
  {
    hide NameOf;
  }

  /** The statement: ORDER BY ... LIMIT over the matching rows. */
  method SelectStops(t: Tables, slug: Slug, query: Option<string>, fold: string -> string) returns (rows: seq<StopRec>)
    ensures IsTop(ORDER, MatchingStops(t, slug, query, fold), LimitFor(query), rows)
  {
    hide MatchingStops, NotAfter;
    var table := MatchingStops(t, slug, query, fold);
    var listed := ListSet(table);
    OrderIsTotalPreorder();
    SortOrders(ORDER, listed);
    var ordered := Sort(ORDER, listed);
    LimitOfOrdering(ORDER, listed, table, ordered, LimitFor(query));
    rows := ordered[..Kept(LimitFor(query), |table|)];
  }

  // ---------------------------------------------------------------- the response, told on the tables

  /** A stop of the provider; if a query is given, some stretch of its name matches the query as a pattern. */
  ghost predicate IsAskedFor(t: Tables, slug: Slug, query: Option<string>, fold: string -> string, r: StopRec) {
    r.0 in t.stops && t.stops[r.0] == r.1 && r.0.slug == slug &&
    (query.Some? && query.value != "" ==>
       var name := fold(r.1.name);
       exists i, j :: 0 <= i <= j <= |name| && Like(fold(Strip(query.value)), name[i..j]))
  }

  /** By stored name, then by id. */
  predicate ComesFirst(a: StopRec, b: StopRec) {
    TextLe(a.1.name, b.1.name) && (a.1.name == b.1.name ==> TextLe(a.0.stopId, b.0.stopId))
  }

  /** m tells of row a, and no row before it has the same normalised name. */
  predicate Tells(rows: seq<StopRec>, a: nat, m: StopModel) {
    a < |rows| &&
    (var (k, v) := rows[a]; m == StopModel(k.stopId, Normalize(v.name), v.latitude, v.longitude, v.code)) &&
    forall c :: 0 <= c < a ==> Normalize(rows[c].1.name) != m.name
  }

  ghost predicate IsTold(rows: seq<StopRec>, m: StopModel) { exists a: nat :: Tells(rows, a, m) }

  lemma MatchingIsAskedFor(t: Tables, slug: Slug, query: Option<string>, fold: string -> string, r: StopRec)
    ensures r in MatchingStops(t, slug, query, fold) <==> IsAskedFor(t, slug, query, fold, r)
  {
    hide Like, Strip;
    if query.Some? { FragmentMatchesSomewhere(fold(Strip(query.value)), fold(r.1.name)); }
    assert r == (r.0, r.1);
  }

  lemma OrderComesFirst(a: StopRec, b: StopRec)
    ensures ORDER(a, b) <==> ComesFirst(a, b)
  {
    hide TextLe;
    TextLeReflexive(a.1.name);
  }

  /** The rows that stops() reads: the first asked-for ones by name and id, as far as there is room. */
  ghost predicate IsRead(t: Tables, slug: Slug, query: Option<string>, fold: string -> string, room: nat,
                         rows: seq<StopRec>) {
    |rows| <= room &&
    (forall i, j :: 0 <= i < j < |rows| ==> rows[i] != rows[j] && ComesFirst(rows[i], rows[j])) &&
    (forall r :: r in rows ==> IsAskedFor(t, slug, query, fold, r)) &&
    forall r :: IsAskedFor(t, slug, query, fold, r) && r !in rows ==>
      |rows| == room && forall s :: s in rows ==> ComesFirst(s, r)
  }

  lemma TopIsRead(t: Tables, slug: Slug, query: Option<string>, fold: string -> string, rows: seq<StopRec>)
    requires IsTop(ORDER, MatchingStops(t, slug, query, fold), LimitFor(query), rows)
    ensures IsRead(t, slug, query, fold, if query.Some? && query.value != "" then 500 else 5000, rows)
  {
    hide MatchingStops, ORDER, ComesFirst, IsAskedFor;
    forall r ensures r in MatchingStops(t, slug, query, fold) <==> IsAskedFor(t, slug, query, fold, r) {
      MatchingIsAskedFor(t, slug, query, fold, r);
    }
    forall a, b ensures ORDER(a, b) <==> ComesFirst(a, b) {
      OrderComesFirst(a, b);
    }
  }

  /**
   * stops: the first 500 or 5000 rows that are asked for, reduced to one row for each normalised name, the first,
   * in their order.
   */
  method Stops(t: Tables, slug: Slug, query: Option<string>, fold: string -> string)
      returns (result: seq<StopModel>, rows: seq<StopRec>)
    ensures IsRead(t, slug, query, fold, if query.Some? && query.value != "" then 500 else 5000, rows)
    ensures forall i, j :: 0 <= i < j < |result| ==> result[i].name != result[j].name
    ensures forall i :: 0 <= i < |result| ==> IsTold(rows, result[i])
    ensures forall i, j, a: nat, b: nat ::
              0 <= i < j < |result| && Tells(rows, a, result[i]) && Tells(rows, b, result[j]) ==> a < b
    ensures forall s :: s in rows ==> exists i :: 0 <= i < |result| && result[i].name == Normalize(s.1.name)
  {
    rows := SelectStops(t, slug, query, fold);
    TopIsRead(t, slug, query, fold, rows);
    result := Deduplicate(rows);
    FirstsTold(rows, result);
  }

  lemma FirstsTold(rows: seq<StopRec>, result: seq<StopModel>)
    requires |result| == |Firsts(rows)| && forall i :: 0 <= i < |result| ==> result[i] == ModelOf(Firsts(rows)[i])
    ensures forall i, j :: 0 <= i < j < |result| ==> result[i].name != result[j].name
    ensures forall i :: 0 <= i < |result| ==> IsTold(rows, result[i])
    ensures forall i, j, a: nat, b: nat ::
              0 <= i < j < |result| && Tells(rows, a, result[i]) && Tells(rows, b, result[j]) ==> a < b
    ensures forall s :: s in rows ==> exists i :: 0 <= i < |result| && result[i].name == Normalize(s.1.name)
  {
    hide Normalize, Firsts, Tells, IsFirst;
    var firsts := Firsts(rows);
    FirstsDistinctNames(rows);
    FirstsKeepOrder(rows);
    forall i | 0 <= i < |result| ensures IsTold(rows, result[i]) {
      var a := PositionTold(rows, firsts[i]);
    }
    forall i, j, a: nat, b: nat | 0 <= i < j < |result| && Tells(rows, a, result[i]) && Tells(rows, b, result[j])
      ensures a < b
    {
      var a' := PositionTold(rows, firsts[i]);
      var b' := PositionTold(rows, firsts[j]);
      ToldFirst(rows, a, a', result[i]);
      ToldFirst(rows, b, b', result[j]);
    }
    forall s | s in rows ensures exists i :: 0 <= i < |result| && result[i].name == Normalize(s.1.name) {
      var j: nat :| j < |rows| && rows[j] == s;
      FirstsLoseNoName(rows, j);
      var r :| r in firsts && NameOf(r) == NameOf(rows[j]);
      var i :| 0 <= i < |firsts| && firsts[i] == r;
      assert result[i].name == NameOf(s);
    }
  }

  lemma PositionTold(rows: seq<StopRec>, r: StopRec) returns (a: nat)
    requires r in Firsts(rows)
    ensures IsFirst(rows, a) && rows[a] == r && Tells(rows, a, ModelOf(r))
  {
    hide Normalize, Firsts;
    FirstsAreFirst(rows, r);
    a :| IsFirst(rows, a) && rows[a] == r;
  }

  lemma ToldFirst(rows: seq<StopRec>, a: nat, b: nat, m: StopModel)
    requires Tells(rows, a, m) && Tells(rows, b, m)
    ensures a == b && IsFirst(rows, a)
  {
    hide Normalize;
  }

  // ---------------------------------------------------------------- startup

  /** Database.initialize on an existing database: one normalisation of every stored name. */
  function Started(t: Tables): Tables {
    t.(stops := map k | k in t.stops :: t.stops[k].(name := Normalize(t.stops[k].name)))
  }

  function StartedTimes(t: Tables, n: nat): Tables {
    if n == 0 then t else Started(StartedTimes(t, n - 1))
  }

  lemma {:induction false} StoredNamesAfterStarts(t: Tables, n: nat)
    ensures StartedTimes(t, n).stops.Keys == t.stops.Keys
    ensures forall k :: k in t.stops ==>
            StartedTimes(t, n).stops[k] == t.stops[k].(name := AfterStarts(t.stops[k].name, n))
    ensures StartedTimes(t, n) == t.(stops := StartedTimes(t, n).stops)
  {
    hide Normalize;
    if n > 0 {
      StoredNamesAfterStarts(t, n - 1);
    }
  }

  /** What a start makes of a provider's schedule depends on that schedule only. */
  lemma StartedDependsOnOwnSchedule(a: Tables, b: Tables, slug: Slug)
    requires StaticOf(a, slug) == StaticOf(b, slug)
    ensures StaticOf(Started(a), slug) == StaticOf(Started(b), slug)
  {
    hide Normalize;
    var x, y := StaticOf(Started(a), slug).stops, StaticOf(Started(b), slug).stops;
    forall k: StopKey | k.slug == slug
      ensures (k in a.stops <==> k in b.stops) && (k in a.stops ==> a.stops[k] == b.stops[k])
    {
      assert k in StaticOf(a, slug).stops <==> k in StaticOf(b, slug).stops;
      if k in a.stops { assert StaticOf(a, slug).stops[k] == StaticOf(b, slug).stops[k]; }
    }
    assert x == y;
  }

  lemma {:induction false} StartsDependOnOwnSchedule(a: Tables, b: Tables, slug: Slug, n: nat)
    requires StaticOf(a, slug) == StaticOf(b, slug)
    ensures StaticOf(StartedTimes(a, n), slug) == StaticOf(StartedTimes(b, n), slug)
  {
    hide StaticOf, Started;
    if n > 0 {
      StartsDependOnOwnSchedule(a, b, slug, n - 1);
      StartedDependsOnOwnSchedule(StartedTimes(a, n - 1), StartedTimes(b, n - 1), slug);
    }
  }

  lemma {:induction false} StartsAddUp(t: Tables, m: nat, n: nat)
    ensures StartedTimes(StartedTimes(t, m), n) == StartedTimes(t, m + n)
  {
    hide Started;
    if n > 0 { StartsAddUp(t, m, n - 1); }
  }

  /** Once every stored name has had as many starts as characters, starting changes nothing. */
  lemma StartsSettle(t: Tables, n: nat)
    requires forall k :: k in t.stops ==> n > |t.stops[k].name|
    ensures Started(StartedTimes(t, n)) == StartedTimes(t, n)
  {
    hide Normalize, AfterStarts;
    StoredNamesAfterStarts(t, n);
    StoredNamesAfterStarts(t, n + 1);
    forall k | k in t.stops ensures AfterStarts(t.stops[k].name, n + 1) == AfterStarts(t.stops[k].name, n) {
      StartsReachFixpoint(t.stops[k].name, n);
    }
    assert StartedTimes(t, n + 1).stops == StartedTimes(t, n).stops;
    assert StartedTimes(t, n + 1) == Started(StartedTimes(t, n));
  }
}
