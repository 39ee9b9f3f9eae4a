/** Asking schedule() for a name that stops() has listed: which of the stops behind that name it finds. */
module StopLookup {
  import opened Prelude
  import opened Calendar
  import opened Text
  import opened StopName
  import opened LikePattern
  import opened Schema
  import opened DepartureQuery
  import StopList

  /** str.casefold works on each character of a text by itself. */
  ghost predicate FoldsCharacters(fold: string -> string) { forall a, b :: fold(a + b) == fold(a) + fold(b) }

  /** The query for the name under which the stop is listed. */
  function QueryForListed(t: Tables, k: StopKey, fold: string -> string, today: Day, secondsToday: int,
                          count: int): Query
    requires k in t.stops
  {
    QueryFor(k.slug, Some(StopList.NameOf((k, t.stops[k]))), fold, today, secondsToday, count)
  }

  /** A stored name that the query takes for an exact match. */
  ghost predicate IsExact(t: Tables, q: Query, k: StopKey) {
    q.name.Some? && k in t.stops && k.slug == q.slug && q.fold(t.stops[k].name) == q.name.value
  }

  lemma {:induction false} LikeItself(pattern: string)
    ensures Like(pattern, pattern)
  {
    if pattern != "" {
      LikeItself(pattern[1..]);
      if pattern[0] == '%' { PercentTakesOne(pattern[1..]); }
      assert pattern == [pattern[0]] + pattern[1..];
    }
  }

  lemma PercentTakesOne(rest: string)
    requires Like(rest, rest)
    ensures Like("%" + rest, "%" + rest)
  {
    var p := "%" + rest;
    assert p[1..] == rest;
    assert Like(p, p[1..]);
  }

  lemma StrippedStandsFirst(name: string)
    ensures Strip(name) <= StripLeft(name)
  {
    hide StripRight, StripLeft;
  }

  /** Normalising cuts a stretch out of the name. */
  lemma NormalizedStandsInside(name: string) returns (before: string, after: string)
    ensures name == before + Normalize(name) + after
  {
    hide StripLeft, Strip, Normalize;
    StripLeftMeaning(name);
    StrippedStandsFirst(name);
    NormalizeMeaning(name);
    var l, n := StripLeft(name), Normalize(name);
    assert n <= l;
    before, after := name[..|name| - |l|], l[|n|..];
  }

  lemma ListedFragmentMatches(name: string, fold: string -> string)
    requires FoldsCharacters(fold)
    ensures Like("%" + fold(Normalize(Normalize(name))) + "%", fold(name))
  {
    hide Like, Normalize;
    var a, d := NormalizedStandsInside(name);
    var b, c := NormalizedStandsInside(Normalize(name));
    var fragment := Normalize(Normalize(name));
    var before, after := a + b, c + d;
    assert name == (before + fragment) + after;
    assert fold(name) == fold(before + fragment) + fold(after) == fold(before) + fold(fragment) + fold(after);
    var i := |fold(before)|;
    assert fold(name)[i..i + |fold(fragment)|] == fold(fragment);
    LikeItself(fold(fragment));
    FragmentMatchesSomewhere(fold(fragment), fold(name));
  }

  /**
   * A stop is found under its listed name exactly when its stored name is an exact match or no stored name is: the
   * fuzzy match never fails it, but an exact match of another stop shuts it out.
   */
  lemma ListedNameFinds(t: Tables, k: StopKey, fold: string -> string, today: Day, secondsToday: int, count: int)
    requires k in t.stops && FoldsCharacters(fold)
    ensures var q := QueryForListed(t, k, fold, today, secondsToday, count);
      NameQualifies(t, q, t.stops[k].name) <==> IsExact(t, q, k) || forall other :: !IsExact(t, q, other)
  {
    hide Like, Normalize, FoldsCharacters;
    var q := QueryForListed(t, k, fold, today, secondsToday, count);
    ListedFragmentMatches(t.stops[k].name, fold);
    if forall other :: !IsExact(t, q, other) {
      forall other | other in t.stops && other.slug == q.slug ensures q.fold(t.stops[other].name) != q.name.value {
        assert !IsExact(t, q, other);
      }
    }
  }

  /** Once its stored name has settled, a stop is found under its listed name, by exact match. */
  lemma SettledNameIsExact(t: Tables, k: StopKey, fold: string -> string, today: Day, secondsToday: int, count: int)
    requires k in t.stops && Normalize(t.stops[k].name) == t.stops[k].name
    ensures IsExact(t, QueryForListed(t, k, fold, today, secondsToday, count), k)
  {
  }

  /**
   * A concrete stop that its listed name does not find: "A 01 02" of a feed is stored as "A 01" and listed as "A",
   * and another stop is stored as "A".
   */
  lemma ListedStopIsShutOut(t: Tables, today: Day, secondsToday: int, count: int)
    requires t.stops == map[
      StopKey("p", "1") := StopRow(Normalize("A 01 02"), None, None, None), StopKey("p", "2") :=
        StopRow(Normalize("A"), None, None, None)]
    ensures var k := StopKey("p", "1");
      var q := QueryForListed(t, k, name => name, today, secondsToday, count);
      StopList.NameOf((k, t.stops[k])) == "A" && t.stops[k].name == "A 01" && !NameQualifies(t, q, t.stops[k].name)
  {
    NormalizeIsNotIdempotent();
    assert Normalize("A") == "A" by { assert Strip("A") == "A"; }
    hide Normalize;
    var q := QueryForListed(t, StopKey("p", "1"), name => name, today, secondsToday, count);
    assert IsExact(t, q, StopKey("p", "2"));
  }
}
