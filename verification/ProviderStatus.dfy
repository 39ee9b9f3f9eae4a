/** app/core/provider_status.py. */
module ProviderStatus {
  import opened Prelude
  import opened Text
  import opened Schema
  import opened Sql

  datatype RefreshState =
    | Pending | Valid | DownloadingDelays | UpdatingDelays | DownloadingSchedule | UpdatingSchedule
    | DownloadingMachines | UpdatingMachines | Failed

  datatype Status = Status(slug: Slug, state: RefreshState, progress: real)

  const BY_SLUG: (Slug, Slug) -> bool := (a, b) => TextLe(a, b)

  lemma BySlugIsTotalPreorder()
    ensures IsTotalPreorder(BY_SLUG)
  {
    forall a, b ensures BY_SLUG(a, b) || BY_SLUG(b, a) { TextLeTotal(a, b); }
    forall a, b, c | BY_SLUG(a, b) && BY_SLUG(b, c) ensures BY_SLUG(a, c) { TextLeTransitive(a, b, c); }
  }

  /** The one list of all statuses in slug order. */
  ghost predicate IsListing(statuses: map<Slug, Status>, listed: seq<Status>) {
    |listed| == |statuses| &&
    (forall i :: 0 <= i < |listed| ==> listed[i].slug in statuses && listed[i] == statuses[listed[i].slug]) &&
    (forall i, j :: 0 <= i < j < |listed| ==>
      listed[i].slug != listed[j].slug && TextLe(listed[i].slug, listed[j].slug)) &&
    forall slug :: slug in statuses ==> exists i :: 0 <= i < |listed| && listed[i].slug == slug
  }

  class Tracker {
    var statuses: map<Slug, Status>

    ghost predicate Consistent()
      reads this
    {
      forall slug :: slug in statuses ==> statuses[slug].slug == slug && 0.0 <= statuses[slug].progress <= 1.0
    }

    constructor (slugs: seq<Slug>)
      ensures Consistent()
      ensures statuses.Keys == Elements(slugs)
      ensures forall slug :: slug in slugs ==> statuses[slug] == Status(slug, Pending, 0.0)
    {
      statuses := map slug | slug in slugs :: Status(slug, Pending, 0.0);
    }

    /** set: an unknown provider or a progress outside [0, 1] raises and changes nothing. */
    method Set(slug: Slug, state: RefreshState, progress: real) returns (ok: bool)
      requires Consistent()
      modifies this
      ensures Consistent()
      ensures ok <==> 0.0 <= progress <= 1.0 && slug in old(statuses)
      ensures statuses == if ok then old(statuses)[slug := Status(slug, state, progress)] else old(statuses)
    {
      if !(0.0 <= progress <= 1.0) {
        return false;
      }
      if slug !in statuses {
        return false;
      }
      statuses := statuses[slug := Status(slug, state, progress)];
      return true;
    }

    /** snapshots: every status once, sorted by slug. */
    method Snapshots() returns (listed: seq<Status>)
      requires Consistent()
      ensures IsListing(statuses, listed)
    {
      var slugs := ListSet(statuses.Keys);
      BySlugIsTotalPreorder();
      SortOrders(BY_SLUG, slugs);
      var ordered := Sort(BY_SLUG, slugs);
      OrderingEnumerates(slugs, ordered, statuses.Keys);
      listed := Listed(statuses, ordered);
      OrderedIsListing(statuses, ordered);
    }
  }

  /** The statuses of the slugs, in the order of the slugs. */
  function Listed(statuses: map<Slug, Status>, ordered: seq<Slug>): (r: seq<Status>)
    requires forall slug :: slug in ordered ==> slug in statuses
    ensures |r| == |ordered|
  {
    seq(|ordered|, i requires 0 <= i < |ordered| => assert ordered[i] in ordered; statuses[ordered[i]])
  }

  lemma OrderedIsListing(statuses: map<Slug, Status>, ordered: seq<Slug>)
    requires Enumerates(ordered, statuses.Keys) && Sorted(BY_SLUG, ordered)
    requires forall slug :: slug in statuses ==> statuses[slug].slug == slug
    ensures IsListing(statuses, Listed(statuses, ordered))
  {
    EnumerationLength(ordered, statuses.Keys);
    var listed := Listed(statuses, ordered);
    assert forall i :: 0 <= i < |ordered| ==> ordered[i] in ordered && listed[i].slug == ordered[i];
    forall i, j | 0 <= i < j < |listed|
      ensures listed[i].slug != listed[j].slug && TextLe(listed[i].slug, listed[j].slug)
    {
      assert BY_SLUG(ordered[i], ordered[j]);
    }
    forall slug | slug in statuses ensures exists i :: 0 <= i < |listed| && listed[i].slug == slug {
      assert slug in ordered;
      var i :| 0 <= i < |ordered| && ordered[i] == slug;
      assert listed[i].slug == slug;
    }
  }

  /** The snapshot is deterministic: the statuses leave only one possible list. */
  lemma ListingIsUnique(statuses: map<Slug, Status>, a: seq<Status>, b: seq<Status>)
    requires IsListing(statuses, a) && IsListing(statuses, b)
    ensures a == b
  {
    forall i | 0 <= i < |a| ensures a[i] == b[i] {
      SamePosition(statuses, a, b, i);
    }
  }

  lemma {:induction false} SamePosition(statuses: map<Slug, Status>, a: seq<Status>, b: seq<Status>, i: nat)
    requires IsListing(statuses, a) && IsListing(statuses, b) && i < |a|
    ensures a[i] == b[i]
    decreases i
  {
    forall k | 0 <= k < i ensures a[k] == b[k] {
      SamePosition(statuses, a, b, k);
    }
    var m := PositionOf(statuses, b, a[i].slug);
    var n := PositionOf(statuses, a, b[i].slug);
    NotBefore(statuses, a, b, i, m);
    NotBefore(statuses, b, a, i, n);
    if m > i && n > i {
      TextLeAntisymmetric(a[i].slug, b[i].slug);
    }
  }

  lemma PositionOf(statuses: map<Slug, Status>, listed: seq<Status>, slug: Slug) returns (i: nat)
    requires IsListing(statuses, listed) && slug in statuses
    ensures i < |listed| && listed[i].slug == slug
  {
    i :| i < |listed| && listed[i].slug == slug;
  }

  lemma NotBefore(statuses: map<Slug, Status>, a: seq<Status>, b: seq<Status>, i: nat, m: nat)
    requires IsListing(statuses, a) && IsListing(statuses, b) && i < |a| && m < |b| && b[m].slug == a[i].slug
    requires forall k :: 0 <= k < i ==> a[k] == b[k]
    ensures m >= i && (m > i ==> TextLe(b[i].slug, a[i].slug))
  {
  }
}
