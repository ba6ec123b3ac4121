/** The proximity ranking shared by service and provider discovery: each
    candidate row gets a `distance` (null when its stored coordinates are
    missing or zero), then the list is sorted nearest first with every null
    distance after every known one.

    The haversine formula itself is floating-point trigonometry and is kept
    abstract: callers pass it in as a function of (lat1, lon1, lat2, lon2). */
module Proximity {
  import opened Common
  import opened Sorting

  /** The great-circle distance in kilometres, abstract. */
  type Haversine = (real, real, real, real) -> real

  /** A listed row with the `distance` property the ranking attaches to it
      (None for null, and for a listing that was not ranked). */
  datatype Listed<T> = Listed(id: nat, item: T, distance: Option<real>)

  /** `if (row.latitude && row.longitude)`: the distance from the observer
      when both stored coordinates are truthy, null otherwise. A stored
      coordinate of 0 counts as missing. */
  function DistanceFrom(obsLat: real, obsLon: real, lat: Option<real>, lon: Option<real>, haversine: Haversine): (d: Option<real>)
    ensures d.Some? <==> TruthyNumber(lat) && TruthyNumber(lon)
    ensures d.Some? ==> d.value == haversine(obsLat, obsLon, lat.value, lon.value)
  {
    if TruthyNumber(lat) && TruthyNumber(lon) then Some(haversine(obsLat, obsLon, lat.value, lon.value)) else None
  }

  /** The comparator handed to `Array.prototype.sort`: 1 when `a` has no
      distance, else -1 when `b` has none, else the difference. */
  function Compare<T>(a: Listed<T>, b: Listed<T>): real {
    if a.distance.None? then 1.0
    else if b.distance.None? then -1.0
    else a.distance.value - b.distance.value
  }

  /** The order the ranking produces: known distances ascending, unknown last,
      unknown entries tied with each other. */
  predicate NearerFirst<T>(a: Listed<T>, b: Listed<T>) {
    b.distance.None? || (a.distance.Some? && a.distance.value <= b.distance.value)
  }

  /** Wherever the comparator is consistent (at most one side null), it
      places `a` no later than `b` exactly when NearerFirst does. */
  lemma CompareAgrees<T>(a: Listed<T>, b: Listed<T>)
    requires a.distance.Some? || b.distance.Some?
    ensures NearerFirst(a, b) <==> Compare(a, b) <= 0.0
  {
  }

  /** For two null distances the comparator claims each is greater than the
      other, so the relative order of unknown-distance rows is left to the
      sort implementation: no property below speaks about it. */
  lemma CompareInconsistentOnNulls<T>(a: Listed<T>, b: Listed<T>)
    requires a.distance.None? && b.distance.None?
    ensures Compare(a, b) > 0.0 && Compare(b, a) > 0.0
  {
  }

  lemma NearerFirstIsTotalPreorder<T(!new)>()
    ensures TotalPreorder(NearerFirst<T>)
  {
  }

  /** Every row with a known distance precedes every row without one, and
      known distances never decrease along the list. */
  ghost predicate RankedByDistance<T>(s: seq<Listed<T>>) {
    && (forall i, j :: 0 <= i < |s| && 0 <= j < |s| && s[i].distance.Some? && s[j].distance.None? ==> i < j)
    && (forall i, j :: 0 <= i < j < |s| && s[i].distance.Some? && s[j].distance.Some? ==> s[i].distance.value <= s[j].distance.value)
  }

  /** Any window of a ranked list is ranked. */
  lemma {:induction false} PageOfRanked<T>(s: seq<Listed<T>>, offset: nat, limit: nat)
    ensures RankedByDistance(s) ==> RankedByDistance(Page(s, offset, limit))
  {
    if RankedByDistance(s) {
      var p := Page(s, offset, limit);
      forall i, j | 0 <= i < |p| && 0 <= j < |p| && p[i].distance.Some? && p[j].distance.None?
        ensures i < j
      {
        assert p[i] == s[offset + i] && p[j] == s[offset + j];
      }
      forall i, j | 0 <= i < j < |p| && p[i].distance.Some? && p[j].distance.Some?
        ensures p[i].distance.value <= p[j].distance.value
      {
        assert p[i] == s[offset + i] && p[j] == s[offset + j];
      }
    }
  }

  /** `list.sort(Compare)`, realised by insertion sort. */
  function Rank<T>(s: seq<Listed<T>>): seq<Listed<T>> {
    SortBy(s, NearerFirst)
  }

  /** The ranked list is a permutation of its input, ordered by distance with
      unknown distances last. */
  lemma {:induction false} RankSpec<T(!new)>(s: seq<Listed<T>>)
    ensures multiset(Rank(s)) == multiset(s)
    ensures RankedByDistance(Rank(s))
  {
    NearerFirstIsTotalPreorder<T>();
    SortBySorted(s, NearerFirst);
    var r := Rank(s);
    forall i, j | 0 <= i < |r| && 0 <= j < |r| && r[i].distance.Some? && r[j].distance.None?
      ensures i < j
    {
      assert !(j < i && NearerFirst(r[j], r[i]));
    }
    forall i, j | 0 <= i < j < |r| && r[i].distance.Some? && r[j].distance.Some?
      ensures r[i].distance.value <= r[j].distance.value
    {
      assert NearerFirst(r[i], r[j]);
    }
  }

  /** The `forEach` that attaches a distance to every row when the observer
      gave coordinates. `coords` reads a row's stored latitude and longitude. */
  function WithDistances<T>(rows: seq<(nat, T)>, obsLat: real, obsLon: real, coords: T -> (Option<real>, Option<real>), haversine: Haversine): (r: seq<Listed<T>>)
    ensures |r| == |rows|
    ensures forall i :: 0 <= i < |r| ==> r[i].id == rows[i].0 && r[i].item == rows[i].1
    ensures forall i :: 0 <= i < |r| ==> r[i].distance == DistanceFrom(obsLat, obsLon, coords(rows[i].1).0, coords(rows[i].1).1, haversine)
  {
    if rows == [] then []
    else [Listed(rows[0].0, rows[0].1, DistanceFrom(obsLat, obsLon, coords(rows[0].1).0, coords(rows[0].1).1, haversine))]
         + WithDistances(rows[1..], obsLat, obsLon, coords, haversine)
  }

  /** Each row of `WithDistances` is an input row with its own distance. */
  lemma {:induction false} WithDistancesMembers<T>(rows: seq<(nat, T)>, obsLat: real, obsLon: real, coords: T -> (Option<real>, Option<real>), haversine: Haversine)
    ensures forall x :: x in WithDistances(rows, obsLat, obsLon, coords, haversine) ==>
              (x.id, x.item) in rows && x.distance == DistanceFrom(obsLat, obsLon, coords(x.item).0, coords(x.item).1, haversine)
  {
    var d := WithDistances(rows, obsLat, obsLon, coords, haversine);
    forall x | x in d
      ensures (x.id, x.item) in rows
      ensures x.distance == DistanceFrom(obsLat, obsLon, coords(x.item).0, coords(x.item).1, haversine)
    {
      var i :| 0 <= i < |d| && d[i] == x;
      assert rows[i] == (x.id, x.item);
    }
  }

  /** Ranking rows with distances keeps each an input row with its own distance. */
  lemma {:induction false} RankedMembers<T(!new)>(rows: seq<(nat, T)>, obsLat: real, obsLon: real, coords: T -> (Option<real>, Option<real>), haversine: Haversine)
    ensures forall x :: x in Rank(WithDistances(rows, obsLat, obsLon, coords, haversine)) ==>
              (x.id, x.item) in rows && x.distance == DistanceFrom(obsLat, obsLon, coords(x.item).0, coords(x.item).1, haversine)
  {
    var d := WithDistances(rows, obsLat, obsLon, coords, haversine);
    RankSpec(d);
    SameElements(Rank(d), d);
    WithDistancesMembers(rows, obsLat, obsLon, coords, haversine);
  }

  /** The `forEach` loop itself: for each row in turn, the distance when
      both stored coordinates are truthy, and null otherwise. */
  method AttachDistances<T>(rows: seq<(nat, T)>, obsLat: real, obsLon: real, coords: T -> (Option<real>, Option<real>), haversine: Haversine)
    returns (listed: seq<Listed<T>>)
    ensures listed == WithDistances(rows, obsLat, obsLon, coords, haversine)
  {
    listed := [];
    var i := 0;
    while i < |rows|
      invariant 0 <= i <= |rows|
      invariant |listed| == i
      invariant forall k :: 0 <= k < i ==>
                  listed[k] == Listed(rows[k].0, rows[k].1, DistanceFrom(obsLat, obsLon, coords(rows[k].1).0, coords(rows[k].1).1, haversine))
    {
      var (lat, lon) := coords(rows[i].1);
      var distance: Option<real>;
      if TruthyNumber(lat) && TruthyNumber(lon) {
        distance := Some(haversine(obsLat, obsLon, lat.value, lon.value));
      } else {
        distance := None;
      }
      listed := listed + [Listed(rows[i].0, rows[i].1, distance)];
      i := i + 1;
    }
  }

  /** A listing that was not ranked: the rows in query order, without distance. */
  function Unranked<T>(rows: seq<(nat, T)>): (r: seq<Listed<T>>)
    ensures |r| == |rows|
    ensures forall i :: 0 <= i < |r| ==> r[i] == Listed(rows[i].0, rows[i].1, None)
  {
    if rows == [] then [] else [Listed(rows[0].0, rows[0].1, None)] + Unranked(rows[1..])
  }
}
