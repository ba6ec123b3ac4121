/** backend/controllers/userController.js: the public profile with provider
    statistics, the owner-only profile update, provider discovery, and the
    self-service upgrade to the provider role. */
module UserController {
  import opened Common
  import opened Sorting
  import opened Schema
  import opened Proximity
  import ReviewController

  /** The sum of the ratings of some review rows. */
  function SumRatings(rows: seq<(nat, Review)>): real {
    if rows == [] then 0.0 else rows[0].1.rating + SumRatings(rows[1..])
  }

  /** Ratings between 1 and 5 sum to between `n` and `5n`. */
  lemma {:induction false} SumRatingsBounds(rows: seq<(nat, Review)>)
    requires forall i :: 0 <= i < |rows| ==> 1.0 <= rows[i].1.rating <= 5.0
    ensures |rows| as real <= SumRatings(rows) <= 5.0 * |rows| as real
  {
    if rows != [] {
      SumRatingsBounds(rows[1..]);
    }
  }

  /** A sum between `n` and `5n` over `n` items has a mean between 1 and 5. */
  lemma MeanBounds(sum: real, n: real)
    requires 0.0 < n && n <= sum <= 5.0 * n
    ensures 1.0 <= sum / n <= 5.0
  {
    var m := sum / n;
    assert m * n == sum;
    assert m >= 1.0;
    var k := 5.0 - m;
    assert k * n == 5.0 * n - m * n;
    assert k * n >= 0.0;
  }

  /** `COALESCE(AVG(rating), 0)`: the mean rating, 0 without reviews. */
  function AverageRating(rows: seq<(nat, Review)>): (a: real)
    ensures rows == [] ==> a == 0.0
    ensures rows != [] && (forall i :: 0 <= i < |rows| ==> 1.0 <= rows[i].1.rating <= 5.0) ==> 1.0 <= a <= 5.0
  {
    if rows == [] then 0.0
    else
      var n := |rows| as real;
      assert (forall i :: 0 <= i < |rows| ==> 1.0 <= rows[i].1.rating <= 5.0) ==> 1.0 <= SumRatings(rows) / n <= 5.0 by {
        if forall i :: 0 <= i < |rows| ==> 1.0 <= rows[i].1.rating <= 5.0 {
          SumRatingsBounds(rows);
          MeanBounds(SumRatings(rows), n);
        }
      }
      SumRatings(rows) / n
  }

  /** The counters a provider's profile and card show. */
  datatype ProviderStats = ProviderStats(totalServices: nat, avgRating: real, totalReviews: nat, completedJobs: nat)

  predicate ActiveServiceOf(userId: nat, row: (nat, Service)) {
    row.1.providerId == userId && row.1.isActive
  }

  predicate CompletedJobOf(userId: nat, row: (nat, Booking)) {
    row.1.providerId == userId && row.1.status == Completed
  }

  function ReviewsOf(t: Tables, userId: nat): seq<(nat, Review)> {
    Keep(t.ReviewRows(), row => ReviewController.ForProvider(userId, row))
  }

  /** The active services, the mean rating and number of reviews, and the
      completed bookings of a provider (`getUserById`'s `stats`, and the
      counters of `getAllProviders`, whose duplicating LEFT JOINs leave the
      DISTINCT counts and the mean unchanged). */
  function Stats(t: Tables, userId: nat): ProviderStats {
    var reviews := ReviewsOf(t, userId);
    ProviderStats(|Keep(t.ServiceRows(), row => ActiveServiceOf(userId, row))|, AverageRating(reviews), |reviews|,
                  |Keep(t.BookingRows(), row => CompletedJobOf(userId, row))|)
  }

  /** On a well-formed database a provider's mean rating is 0 exactly when
      there are no reviews, and a rating from 1 to 5 otherwise; the review
      count is the total the provider-review listing reports. */
  lemma {:induction false} StatsRatingRange(t: Tables, userId: nat)
    requires t.Wf()
    ensures Stats(t, userId).totalReviews == 0 <==> Stats(t, userId).avgRating == 0.0
    ensures Stats(t, userId).totalReviews > 0 ==> 1.0 <= Stats(t, userId).avgRating <= 5.0
    ensures Stats(t, userId).totalReviews == ReviewController.ProviderReviews(t, userId, None, None).total
  {
    var reviews := ReviewsOf(t, userId);
    ScansAreComplete(t);
    forall i | 0 <= i < |reviews| ensures 1.0 <= reviews[i].1.rating <= 5.0 {
      assert reviews[i] in reviews;
    }
  }

  /** GET /api/users/:id: the stored user, with statistics for a provider. */
  datatype Profile = Profile(user: User, stats: Option<ProviderStats>)

  /** `getUserById`: 404 for an unknown id; statistics exactly for providers. */
  function GetUserById(t: Tables, id: nat): (r: Result<Profile>)
    ensures r.Fail? <==> id !in t.users
    ensures r.Fail? ==> r.error == NotFound
    ensures r.Ok? ==> r.value.user == t.users[id]
    ensures r.Ok? ==> (r.value.stats.Some? <==> t.users[id].role == Provider)
    ensures r.Ok? && r.value.stats.Some? ==> r.value.stats.value == Stats(t, id)
  {
    if id !in t.users then Fail(NotFound)
    else if t.users[id].role == Provider then Ok(Profile(t.users[id], Some(Stats(t, id))))
    else Ok(Profile(t.users[id], None))
  }

  /** The body of PUT /api/users/:id: absent fields are None. */
  datatype ProfilePatch = ProfilePatch(
    name: Option<string>,
    phone: Option<string>,
    address: Option<string>,
    latitude: Option<real>,
    longitude: Option<real>,
    bio: Option<string>,
    portfolioUrl: Option<string>)

  /** The seven `COALESCE(?, column)` assignments. */
  function MergeProfile(u: User, p: ProfilePatch): User {
    u.(name := Coalesce(p.name, u.name),
       phone := CoalesceNullable(p.phone, u.phone),
       address := CoalesceNullable(p.address, u.address),
       latitude := CoalesceNullable(p.latitude, u.latitude),
       longitude := CoalesceNullable(p.longitude, u.longitude),
       bio := CoalesceNullable(p.bio, u.bio),
       portfolioUrl := CoalesceNullable(p.portfolioUrl, u.portfolioUrl))
  }

  /** The profile update never changes the email, the role or the verified
      flag; an empty body changes nothing; sending a body twice equals
      sending it once; supplied fields are stored as sent. */
  lemma {:induction false} MergeProfileLaws(u: User, p: ProfilePatch)
    ensures MergeProfile(u, p).email == u.email && MergeProfile(u, p).role == u.role
    ensures MergeProfile(u, p).isVerified == u.isVerified
    ensures MergeProfile(u, ProfilePatch(None, None, None, None, None, None, None)) == u
    ensures MergeProfile(MergeProfile(u, p), p) == MergeProfile(u, p)
    ensures p.name.Some? ==> MergeProfile(u, p).name == p.name.value
    ensures p.latitude.Some? ==> MergeProfile(u, p).latitude == p.latitude
  {
  }

  /** `updateUser`: 403 unless the path id is the actor; otherwise the
      actor's row is merged with the body (an UPDATE of a missing row
      changes nothing and still succeeds). */
  function UpdateUserStep(t: Tables, actor: nat, id: nat, patch: ProfilePatch): (s: Step<()>)
    ensures s.result.Fail? <==> id != actor
    ensures s.result.Fail? ==> s.result.error == Forbidden && s.tables == t
    ensures s.result.Ok? && id in t.users ==> s.tables == t.(users := t.users[id := MergeProfile(t.users[id], patch)])
    ensures s.result.Ok? && id !in t.users ==> s.tables == t
    ensures s.tables.users.Keys == t.users.Keys
    ensures t.Wf() ==> s.tables.Wf()
  {
    if id != actor then Step(t, Fail(Forbidden))
    else if id in t.users then Step(t.(users := t.users[id := MergeProfile(t.users[id], patch)]), Ok(()))
    else Step(t, Ok(()))
  }

  /** `upgradeToProvider`: 403 unless the path id is the actor, 400 when
      the stored role is already provider; otherwise the role becomes
      provider, from customer and from admin alike. The actor's row exists,
      as `authenticate` found it. */
  function UpgradeStep(t: Tables, actor: nat, id: nat): (s: Step<()>)
    requires actor in t.users
    ensures s.result == Fail(Forbidden) <==> id != actor
    ensures s.result == Fail(BadRequest) <==> id == actor && t.users[id].role == Provider
    ensures s.result.Fail? ==> s.tables == t
    ensures s.result.Ok? ==> s.tables == t.(users := t.users[id := t.users[id].(role := Provider)])
    ensures t.Wf() ==> s.tables.Wf()
  {
    if id != actor then Step(t, Fail(Forbidden))
    else if t.users[id].role == Provider then Step(t, Fail(BadRequest))
    else Step(t.(users := t.users[id := t.users[id].(role := Provider)]), Ok(()))
  }

  /** The upgrade works once: afterwards the actor is a provider and a
      second upgrade is refused with 400. An admin who upgrades loses the
      admin role. */
  lemma {:induction false} UpgradeOnce(t: Tables, actor: nat)
    requires actor in t.users && t.users[actor].role != Provider
    ensures var s := UpgradeStep(t, actor, actor);
            && s.result.Ok?
            && s.tables.users[actor].role == Provider
            && UpgradeStep(s.tables, actor, actor).result == Fail(BadRequest)
    ensures t.users[actor].role == Admin ==> UpgradeStep(t, actor, actor).tables.users[actor].role != Admin
  {
    var s := UpgradeStep(t, actor, actor);
    assert s.tables.users[actor].role == Provider;
  }

  /** The query string of GET /api/users/providers; `limit` and `offset`
      default to 20 and 0. */
  datatype ProviderQuery = ProviderQuery(latitude: Option<real>, longitude: Option<real>, limit: Option<nat>, offset: Option<nat>)

  function LimitOf(q: ProviderQuery): nat { Coalesce(q.limit, 20) }
  function OffsetOf(q: ProviderQuery): nat { Coalesce(q.offset, 0) }

  predicate Located(q: ProviderQuery) {
    q.latitude.Some? && q.longitude.Some?
  }

  /** A provider row of the discovery query: the user with its statistics. */
  datatype ProviderCard = ProviderCard(user: User, stats: ProviderStats)

  predicate IsProviderRow(row: (nat, User)) {
    row.1.role == Provider
  }

  /** `ORDER BY u.is_verified DESC, avg_rating DESC`. */
  predicate VerifiedThenRated(a: (nat, ProviderCard), b: (nat, ProviderCard)) {
    || (a.1.user.isVerified && !b.1.user.isVerified)
    || (a.1.user.isVerified == b.1.user.isVerified && a.1.stats.avgRating >= b.1.stats.avgRating)
  }

  lemma VerifiedThenRatedIsTotalPreorder()
    ensures TotalPreorder(VerifiedThenRated)
  {
  }

  /** Each provider row with its statistics attached. */
  function Cards(t: Tables, rows: seq<(nat, User)>): (r: seq<(nat, ProviderCard)>)
    ensures |r| == |rows|
    ensures forall i :: 0 <= i < |r| ==> r[i] == (rows[i].0, ProviderCard(rows[i].1, Stats(t, rows[i].0)))
  {
    if rows == [] then [] else [(rows[0].0, ProviderCard(rows[0].1, Stats(t, rows[0].0)))] + Cards(t, rows[1..])
  }

  /** A row is the card of a stored provider. */
  predicate CardOfProvider(t: Tables, id: nat, card: ProviderCard) {
    id in t.users && t.users[id].role == Provider && card == ProviderCard(t.users[id], Stats(t, id))
  }

  function ProviderRows(t: Tables): seq<(nat, User)> {
    Keep(t.UserRows(), IsProviderRow)
  }

  lemma {:induction false} CardsAreProviders(t: Tables)
    ensures forall row :: row in Cards(t, ProviderRows(t)) ==> CardOfProvider(t, row.0, row.1)
  {
    var k := ProviderRows(t);
    var c := Cards(t, k);
    forall row | row in c ensures CardOfProvider(t, row.0, row.1) {
      var i :| 0 <= i < |c| && c[i] == row;
      assert k[i] in k;
    }
  }

  lemma {:induction false} CardsCoverProviders(t: Tables)
    ensures t.Wf() ==> forall id :: id in t.users && t.users[id].role == Provider ==> (id, ProviderCard(t.users[id], Stats(t, id))) in Cards(t, ProviderRows(t))
  {
    if t.Wf() {
      var k := ProviderRows(t);
      var c := Cards(t, k);
      ScansAreComplete(t);
      forall id | id in t.users && t.users[id].role == Provider
        ensures (id, ProviderCard(t.users[id], Stats(t, id))) in c
      {
        assert (id, t.users[id]) in k;
        var i :| 0 <= i < |k| && k[i] == (id, t.users[id]);
        assert c[i] == (id, ProviderCard(t.users[id], Stats(t, id)));
      }
    }
  }

  /** The scan's provider rows have pairwise different ids. */
  lemma {:induction false} ProviderRowsHaveDistinctIds(t: Tables)
    ensures forall i, j :: 0 <= i < j < |ProviderRows(t)| ==> ProviderRows(t)[i].0 != ProviderRows(t)[j].0
  {
    var u := t.UserRows();
    RowsDistinct(u);
    KeepDistinct(u, IsProviderRow);
    var k := ProviderRows(t);
    forall i, j | 0 <= i < j < |k| ensures k[i].0 != k[j].0 {
      assert k[i] in k && k[j] in k;
      assert k[i].1 == t.users[k[i].0] && k[j].1 == t.users[k[j].0];
    }
  }

  /** No two provider cards are the same row: the scan has one row per user id. */
  lemma {:induction false} CardsDistinct(t: Tables)
    ensures Distinct(Cards(t, ProviderRows(t)))
  {
    ProviderRowsHaveDistinctIds(t);
  }

  /** The query's rows: every provider once (`GROUP BY u.user_id`),
      verified first, then by mean rating. */
  function Providers(t: Tables): (r: seq<(nat, ProviderCard)>)
    ensures SortedBy(r, VerifiedThenRated)
    ensures forall row :: row in r ==> CardOfProvider(t, row.0, row.1)
    ensures t.Wf() ==> forall id :: id in t.users && t.users[id].role == Provider ==> (id, ProviderCard(t.users[id], Stats(t, id))) in r
    ensures NoDuplicates(r)
    ensures |r| == |ProviderRows(t)|
  {
    var c := Cards(t, ProviderRows(t));
    VerifiedThenRatedIsTotalPreorder();
    SortBySorted(c, VerifiedThenRated);
    SameElements(SortBy(c, VerifiedThenRated), c);
    CardsAreProviders(t);
    CardsCoverProviders(t);
    CardsDistinct(t);
    DistinctHasNoDuplicates(c);
    SortBy(c, VerifiedThenRated)
  }

  /** The ids of the stored providers. */
  ghost function ProviderIds(t: Tables): set<nat> {
    set id | id in t.users && t.users[id].role == Provider
  }

  /** The ids of the scan's provider rows, in scan order. */
  function ProviderIdSeq(t: Tables): (ids: seq<nat>)
    ensures |ids| == |ProviderRows(t)|
    ensures forall i :: 0 <= i < |ids| ==> ids[i] == ProviderRows(t)[i].0
  {
    seq(|ProviderRows(t)|, i requires 0 <= i < |ProviderRows(t)| => ProviderRows(t)[i].0)
  }

  /** On a well-formed database the scan's provider ids are the stored providers. */
  lemma {:induction false} ProviderIdSeqCovers(t: Tables)
    requires t.Wf()
    ensures Elements(ProviderIdSeq(t)) == ProviderIds(t)
  {
    var k := ProviderRows(t);
    var ids := ProviderIdSeq(t);
    ScansAreComplete(t);
    forall x | x in ids ensures x in ProviderIds(t) {
      var i :| 0 <= i < |ids| && ids[i] == x;
      assert k[i] in k;
    }
    forall id | id in ProviderIds(t) ensures id in ids {
      assert (id, t.users[id]) in k;
      var i :| 0 <= i < |k| && k[i] == (id, t.users[id]);
      assert ids[i] == id;
    }
  }

  /** The scan's provider ids do not repeat. */
  lemma {:induction false} ProviderIdSeqDistinct(t: Tables)
    ensures Distinct(ProviderIdSeq(t))
  {
    ProviderRowsHaveDistinctIds(t);
  }

  /** On a well-formed database the query returns exactly one row per stored
      provider, so `providers.length` counts the providers. */
  lemma {:induction false} ProviderCount(t: Tables)
    requires t.Wf()
    ensures |Providers(t)| == |ProviderIds(t)|
  {
    var ids := ProviderIdSeq(t);
    ProviderIdSeqDistinct(t);
    DistinctCount(ids);
    ProviderIdSeqCovers(t);
  }

  function CardCoords(c: ProviderCard): (Option<real>, Option<real>) {
    (c.user.latitude, c.user.longitude)
  }

  /** VerifiedThenRated on listed rows. */
  predicate CardFirst(a: Listed<ProviderCard>, b: Listed<ProviderCard>) {
    VerifiedThenRated((a.id, a.item), (b.id, b.item))
  }

  /** The rows before pagination: with observer coordinates, re-sorted
      nearest first; otherwise in the query's order without distance. */
  function OrderedProviders(t: Tables, q: ProviderQuery, haversine: Haversine): (r: seq<Listed<ProviderCard>>)
    ensures |r| == |Providers(t)|
    ensures Located(q) ==> RankedByDistance(r)
    ensures Located(q) ==> multiset(r) == multiset(WithDistances(Providers(t), q.latitude.value, q.longitude.value, CardCoords, haversine))
    ensures !Located(q) ==> r == Unranked(Providers(t))
  {
    if Located(q) then
      var d := WithDistances(Providers(t), q.latitude.value, q.longitude.value, CardCoords, haversine);
      RankSpec(d);
      Rank(d)
    else Unranked(Providers(t))
  }

  /** With observer coordinates, every ordered row is the card of a stored
      provider with its distance from the observer. */
  lemma {:induction false} LocatedProviderRows(t: Tables, q: ProviderQuery, haversine: Haversine)
    requires Located(q)
    ensures forall x :: x in OrderedProviders(t, q, haversine) ==>
              CardOfProvider(t, x.id, x.item) && x.distance == DistanceFrom(q.latitude.value, q.longitude.value, x.item.user.latitude, x.item.user.longitude, haversine)
  {
    var p := Providers(t);
    assert OrderedProviders(t, q, haversine) == Rank(WithDistances(p, q.latitude.value, q.longitude.value, CardCoords, haversine));
    RankedMembers(p, q.latitude.value, q.longitude.value, CardCoords, haversine);
  }

  /** Without observer coordinates, every ordered row is the card of a
      stored provider without a distance, in verified-then-rated order. */
  lemma {:induction false} UnlocatedProviderRows(t: Tables, q: ProviderQuery, haversine: Haversine)
    requires !Located(q)
    ensures forall x :: x in OrderedProviders(t, q, haversine) ==> CardOfProvider(t, x.id, x.item) && x.distance == None
    ensures SortedBy(OrderedProviders(t, q, haversine), CardFirst)
  {
    var p := Providers(t);
    var o := OrderedProviders(t, q, haversine);
    assert o == Unranked(p);
    forall x | x in o
      ensures CardOfProvider(t, x.id, x.item) && x.distance == None
    {
      var i :| 0 <= i < |o| && o[i] == x;
      assert p[i] in p;
    }
    forall i, j | 0 <= i < j < |o|
      ensures CardFirst(o[i], o[j])
    {
      assert (o[i].id, o[i].item) == p[i] && (o[j].id, o[j].item) == p[j];
    }
  }

  /** Ranking or not, the ordered rows hold each provider once. */
  lemma {:induction false} OrderedProvidersOnce(t: Tables, q: ProviderQuery, haversine: Haversine)
    ensures NoDuplicates(OrderedProviders(t, q, haversine))
  {
    var p := Providers(t);
    NoDuplicatesIsDistinct(p);
    var d := if Located(q) then WithDistances(p, q.latitude.value, q.longitude.value, CardCoords, haversine) else Unranked(p);
    forall i, j | 0 <= i < j < |d| ensures d[i] != d[j] {
      assert (d[i].id, d[i].item) == p[i] && (d[j].id, d[j].item) == p[j];
    }
    DistinctHasNoDuplicates(d);
  }

  /** Every ordered row is the card of a stored provider, with its distance
      exactly when the observer is located; without a location the rows
      keep the verified-then-rated order. */
  lemma OrderedProviderRows(t: Tables, q: ProviderQuery, haversine: Haversine)
    ensures forall x :: x in OrderedProviders(t, q, haversine) ==> CardOfProvider(t, x.id, x.item)
    ensures forall x :: x in OrderedProviders(t, q, haversine) ==>
              x.distance == if Located(q) then DistanceFrom(q.latitude.value, q.longitude.value, x.item.user.latitude, x.item.user.longitude, haversine) else None
    ensures !Located(q) ==> SortedBy(OrderedProviders(t, q, haversine), CardFirst)
  {
    if Located(q) {
      LocatedProviderRows(t, q, haversine);
    } else {
      UnlocatedProviderRows(t, q, haversine);
    }
  }

  /** The provider discovery response: one page and the `meta` fields
      (there is no `hasMore`). */
  datatype ProviderPage = ProviderPage(rows: seq<Listed<ProviderCard>>, total: nat, limit: nat, offset: nat)

  /** GET /api/users/providers: the window at `offset` of the ordered
      providers and the number of all providers. */
  function ProvidersFor(t: Tables, q: ProviderQuery, haversine: Haversine): (p: ProviderPage)
    ensures p.rows == Page(OrderedProviders(t, q, haversine), OffsetOf(q), LimitOf(q))
    ensures p.total == |Providers(t)|
    ensures p.limit == LimitOf(q) && p.offset == OffsetOf(q)
    ensures |p.rows| <= LimitOf(q)
    ensures forall x :: x in p.rows ==> CardOfProvider(t, x.id, x.item)
    ensures Located(q) ==> RankedByDistance(p.rows)
    ensures !Located(q) ==> SortedBy(p.rows, CardFirst)
    ensures NoDuplicates(p.rows)
    ensures t.Wf() ==> p.total == |ProviderIds(t)|
  {
    var o := OrderedProviders(t, q, haversine);
    var rows := Page(o, OffsetOf(q), LimitOf(q));
    OrderedProvidersOnce(t, q, haversine);
    PageKeepsNoDuplicates(o, OffsetOf(q), LimitOf(q));
    assert t.Wf() ==> |Providers(t)| == |ProviderIds(t)| by {
      if t.Wf() {
        ProviderCount(t);
      }
    }
    assert forall x :: x in rows ==> x in o;
    OrderedProviderRows(t, q, haversine);
    PageOfRanked(o, OffsetOf(q), LimitOf(q));
    assert !Located(q) ==> SortedBy(rows, CardFirst) by {
      if !Located(q) {
        PageKeepsOrder(o, OffsetOf(q), LimitOf(q), CardFirst);
      }
    }
    ProviderPage(rows, |o|, LimitOf(q), OffsetOf(q))
  }

  /** `getAllProviders`: runs the query, attaches distances when the
      observer is located, sorts nearest first, and slices the page. */
  method GetAllProviders(db: Database, q: ProviderQuery, haversine: Haversine) returns (p: ProviderPage)
    ensures p == ProvidersFor(db.State(), q, haversine)
  {
    var providers := Providers(db.State());
    var listed: seq<Listed<ProviderCard>>;
    if q.latitude.Some? && q.longitude.Some? {
      listed := AttachDistances(providers, q.latitude.value, q.longitude.value, CardCoords, haversine);
      listed := Rank(listed);
    } else {
      listed := Unranked(providers);
    }
    var startIndex := OffsetOf(q);
    p := ProviderPage(Page(listed, startIndex, LimitOf(q)), |listed|, LimitOf(q), OffsetOf(q));
  }

  /** PUT /api/users/:id, behind `authenticate`. */
  method UpdateUser(db: Database, actor: nat, id: nat, patch: ProfilePatch) returns (r: Result<()>)
    requires db.Valid()
    requires actor in db.users
    modifies db
    ensures db.Valid()
    ensures var s := UpdateUserStep(old(db.State()), actor, id, patch);
            db.State() == s.tables && r == s.result
  {
    if id != actor {
      return Fail(Forbidden);
    }
    if id in db.users {
      db.users := db.users[id := MergeProfile(db.users[id], patch)];
    }
    r := Ok(());
  }

  /** PUT /api/users/:id/upgrade-to-provider, behind `authenticate`. */
  method UpgradeToProvider(db: Database, actor: nat, id: nat) returns (r: Result<()>)
    requires db.Valid()
    requires actor in db.users
    modifies db
    ensures db.Valid()
    ensures var s := UpgradeStep(old(db.State()), actor, id);
            db.State() == s.tables && r == s.result
  {
    if id != actor {
      return Fail(Forbidden);
    }
    if db.users[id].role == Provider {
      return Fail(BadRequest);
    }
    db.users := db.users[id := db.users[id].(role := Provider)];
    r := Ok(());
  }
}
