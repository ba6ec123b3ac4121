/** backend/controllers/serviceController.js: service discovery (filters,
    proximity ranking, pagination), the service page with its recent
    reviews, the provider's service list, and the owner-checked create,
    update and delete. */
module ServiceController {
  import opened Common
  import opened Sorting
  import opened Schema
  import opened Proximity
  import ReviewController

  /** The query string of GET /api/services. A filter that is absent or the
      empty string is None; `limit` and `offset` are None when absent and
      default to 20 and 0. */
  datatype ServiceQuery = ServiceQuery(
    categoryId: Option<nat>,
    minPrice: Option<real>,
    maxPrice: Option<real>,
    latitude: Option<real>,
    longitude: Option<real>,
    search: Option<string>,
    limit: Option<nat>,
    offset: Option<nat>)

  function LimitOf(q: ServiceQuery): nat { Coalesce(q.limit, 20) }
  function OffsetOf(q: ServiceQuery): nat { Coalesce(q.offset, 0) }

  /** `if (latitude && longitude)`: the observer gave both coordinates. */
  predicate Located(q: ServiceQuery) {
    q.latitude.Some? && q.longitude.Some?
  }

  /** The WHERE clause of the discovery query, with its inner joins: an
      active service whose provider and category rows exist, in the asked
      category, within the price bounds, and with the search term in its
      title or description. */
  predicate Matches(t: Tables, q: ServiceQuery, s: Service) {
    && s.isActive
    && s.providerId in t.users
    && s.categoryId in t.categories
    && (q.categoryId.Some? ==> s.categoryId == q.categoryId.value)
    && (q.minPrice.Some? ==> s.price >= q.minPrice.value)
    && (q.maxPrice.Some? ==> s.price <= q.maxPrice.value)
    && (q.search.Some? ==> Contains(s.title, q.search.value) || Contains(s.description, q.search.value))
  }

  predicate MatchingRow(t: Tables, q: ServiceQuery, row: (nat, Service)) {
    Matches(t, q, row.1)
  }

  /** The rows the discovery query returns, one per service. */
  function Candidates(t: Tables, q: ServiceQuery): (r: seq<(nat, Service)>)
    ensures forall row :: row in r ==> row.0 in t.services && t.services[row.0] == row.1 && Matches(t, q, row.1)
    ensures t.Wf() ==> forall row: (nat, Service) :: row.0 in t.services && t.services[row.0] == row.1 && Matches(t, q, row.1) ==> row in r
    ensures Distinct(r)
  {
    RowsDistinct(t.ServiceRows());
    KeepDistinct(t.ServiceRows(), row => MatchingRow(t, q, row));
    ScansAreCompleteForServices(t);
    Keep(t.ServiceRows(), row => MatchingRow(t, q, row))
  }

  lemma ScansAreCompleteForServices(t: Tables)
    ensures t.Wf() ==> forall row :: row in t.ServiceRows() <==> row.0 in t.services && t.services[row.0] == row.1
  {
    if t.Wf() {
      ScansAreComplete(t);
    }
  }

  function ServiceCoords(s: Service): (Option<real>, Option<real>) {
    (s.latitude, s.longitude)
  }

  /** The discovery rows before pagination: with observer coordinates, the
      candidates with their distances, nearest first; otherwise the
      candidates in query order without distance. */
  function Ordered(t: Tables, q: ServiceQuery, haversine: Haversine): (r: seq<Listed<Service>>)
    ensures |r| == |Candidates(t, q)|
    ensures Located(q) ==> RankedByDistance(r)
    ensures Located(q) ==> multiset(r) == multiset(WithDistances(Candidates(t, q), q.latitude.value, q.longitude.value, ServiceCoords, haversine))
    ensures !Located(q) ==> r == Unranked(Candidates(t, q))
  {
    var c := Candidates(t, q);
    if Located(q) then
      var d := WithDistances(c, q.latitude.value, q.longitude.value, ServiceCoords, haversine);
      RankSpec(d);
      Rank(d)
    else
      Unranked(c)
  }

  /** Every ordered row is a stored matching service, and carries its
      distance from the observer exactly when the observer is located. */
  lemma {:induction false} OrderedRows(t: Tables, q: ServiceQuery, haversine: Haversine)
    ensures forall x :: x in Ordered(t, q, haversine) ==> x.id in t.services && t.services[x.id] == x.item && Matches(t, q, x.item)
    ensures forall x :: x in Ordered(t, q, haversine) ==>
              x.distance == if Located(q) then DistanceFrom(q.latitude.value, q.longitude.value, x.item.latitude, x.item.longitude, haversine) else None
  {
    var c := Candidates(t, q);
    var o := Ordered(t, q, haversine);
    if Located(q) {
      var d := WithDistances(c, q.latitude.value, q.longitude.value, ServiceCoords, haversine);
      SameElements(o, d);
      forall x | x in o
        ensures x.id in t.services && t.services[x.id] == x.item && Matches(t, q, x.item)
        ensures x.distance == DistanceFrom(q.latitude.value, q.longitude.value, x.item.latitude, x.item.longitude, haversine)
      {
        assert x in d;
        var i :| 0 <= i < |d| && d[i] == x;
        assert c[i] in c;
      }
    } else {
      forall x | x in o
        ensures x.id in t.services && t.services[x.id] == x.item && Matches(t, q, x.item) && x.distance == None
      {
        var i :| 0 <= i < |o| && o[i] == x;
        assert c[i] in c;
      }
    }
  }

  /** The discovery response: one page and the `meta` fields. */
  datatype ServicePage = ServicePage(rows: seq<Listed<Service>>, total: nat, limit: nat, offset: nat, hasMore: bool)

  /** GET /api/services: the window at `offset` of the ordered matching
      services, the number of all of them, and whether more follow. */
  function ServicesFor(t: Tables, q: ServiceQuery, haversine: Haversine): (p: ServicePage)
    ensures p.rows == Page(Ordered(t, q, haversine), OffsetOf(q), LimitOf(q))
    ensures p.total == |Candidates(t, q)|
    ensures p.limit == LimitOf(q) && p.offset == OffsetOf(q)
    ensures p.hasMore <==> OffsetOf(q) + LimitOf(q) < p.total
    ensures |p.rows| <= LimitOf(q)
    ensures forall x :: x in p.rows ==> x.id in t.services && t.services[x.id] == x.item && Matches(t, q, x.item)
    ensures Located(q) ==> RankedByDistance(p.rows)
  {
    var o := Ordered(t, q, haversine);
    var rows := Page(o, OffsetOf(q), LimitOf(q));
    assert forall x :: x in rows ==> x in o;
    OrderedRows(t, q, haversine);
    PageOfRanked(o, OffsetOf(q), LimitOf(q));
    ServicePage(rows, |o|, LimitOf(q), OffsetOf(q), HasMore(|o|, OffsetOf(q), LimitOf(q)))
  }

  /** Services with stored coordinates of zero never get a distance, so they
      are ranked after every located service. */
  lemma {:induction false} ZeroCoordinatesRankLast(t: Tables, q: ServiceQuery, haversine: Haversine, i: nat, j: nat)
    requires Located(q)
    requires i < |Ordered(t, q, haversine)| && j < |Ordered(t, q, haversine)|
    requires Ordered(t, q, haversine)[i].item.latitude == Some(0.0)
    requires var b := Ordered(t, q, haversine)[j].item; TruthyNumber(b.latitude) && TruthyNumber(b.longitude)
    ensures j < i
  {
    var o := Ordered(t, q, haversine);
    OrderedRows(t, q, haversine);
    assert o[i] in o && o[j] in o;
  }

  /** `getAllServices`: runs the query, attaches distances when the observer
      is located, sorts nearest first, and slices the page. */
  method GetAllServices(db: Database, q: ServiceQuery, haversine: Haversine) returns (p: ServicePage)
    ensures p == ServicesFor(db.State(), q, haversine)
  {
    var services := Candidates(db.State(), q);
    var listed: seq<Listed<Service>>;
    if q.latitude.Some? && q.longitude.Some? {
      listed := AttachDistances(services, q.latitude.value, q.longitude.value, ServiceCoords, haversine);
      listed := Rank(listed);
    } else {
      listed := Unranked(services);
    }
    var startIndex := OffsetOf(q);
    var endIndex := startIndex + LimitOf(q);
    p := ServicePage(Page(listed, startIndex, LimitOf(q)), |listed|, LimitOf(q), OffsetOf(q), endIndex < |listed|);
  }

  /** GET /api/services/:id: the service with the first five reviews of its
      newest-first listing. */
  datatype ServiceDetail = ServiceDetail(service: Service, recentReviews: seq<(nat, Review)>)

  /** The service row joins its provider and its category. */
  predicate Shown(t: Tables, id: nat) {
    id in t.services && t.services[id].providerId in t.users && t.services[id].categoryId in t.categories
  }

  /** `getServiceById`: 404 unless the joined row exists (active or not);
      otherwise the service and the first five rows of its newest-first
      review listing, all of them when it has five or fewer. */
  function GetServiceById(t: Tables, id: nat): (r: Result<ServiceDetail>)
    ensures r.Fail? <==> !Shown(t, id)
    ensures r.Fail? ==> r.error == NotFound
    ensures r.Ok? ==> r.value.service == t.services[id]
    ensures r.Ok? ==> r.value.recentReviews == Page(ReviewController.Listing(t, row => ReviewController.OfService(t, id, row)), 0, 5)
    ensures r.Ok? ==> |r.value.recentReviews| <= 5 && SortedBy(r.value.recentReviews, ReviewController.NewerFirst)
    ensures r.Ok? && t.Wf() ==>
              && (forall row :: row in r.value.recentReviews ==> row.0 in t.reviews && t.reviews[row.0] == row.1 && row.1.serviceId == id)
              && |r.value.recentReviews| == Min(5, ReviewController.CountWhere(t, row => ReviewController.ForService(id, row)))
  {
    if !Shown(t, id) then Fail(NotFound)
    else
      var all := ReviewController.Listing(t, row => ReviewController.OfService(t, id, row));
      var recent := Page(all, 0, 5);
      assert forall i, j :: 0 <= i < j < |recent| ==> recent[i] == all[i] && recent[j] == all[j];
      assert forall row :: row in recent ==> row in all;
      ReviewController.ServiceTotalMatchesListing(t, id);
      Ok(ServiceDetail(t.services[id], recent))
  }

  /** No review of the service left off its page is newer than one shown. */
  lemma {:induction false} RecentReviewsAreNewest(t: Tables, id: nat)
    requires t.Wf() && Shown(t, id)
    ensures forall k, x :: k in t.reviews && ReviewController.OfService(t, id, (k, t.reviews[k])) &&
                           (k, t.reviews[k]) !in GetServiceById(t, id).value.recentReviews &&
                           x in GetServiceById(t, id).value.recentReviews
                           ==> x.1.createdAt >= t.reviews[k].createdAt
  {
    var all := ReviewController.Listing(t, row => ReviewController.OfService(t, id, row));
    PrefixComesFirst(all, 5, ReviewController.NewerFirst);
  }

  /** The service page is shown for an inactive service too. */
  lemma {:induction false} InactiveServiceIsShown(t: Tables, id: nat)
    requires Shown(t, id) && !t.services[id].isActive
    ensures GetServiceById(t, id).Ok? && !GetServiceById(t, id).value.service.isActive
  {
  }

  /** `ORDER BY s.created_at DESC`. */
  predicate NewerFirst(a: (nat, Service), b: (nat, Service)) {
    a.1.createdAt >= b.1.createdAt
  }

  lemma NewerFirstIsTotalPreorder()
    ensures TotalPreorder(NewerFirst)
  {
  }

  /** An active service of the provider whose category row exists. */
  predicate OfferedBy(t: Tables, providerId: nat, row: (nat, Service)) {
    row.1.providerId == providerId && row.1.isActive && row.1.categoryId in t.categories
  }

  /** `getServicesByProvider`: each active service of the provider once,
      newest first. */
  function GetServicesByProvider(t: Tables, providerId: nat): (r: seq<(nat, Service)>)
    ensures SortedBy(r, NewerFirst) && NoDuplicates(r)
    ensures forall row :: row in r ==> row.0 in t.services && t.services[row.0] == row.1 && OfferedBy(t, providerId, row)
    ensures t.Wf() ==> forall row :: row in r <==> row.0 in t.services && t.services[row.0] == row.1 && OfferedBy(t, providerId, row)
  {
    NewerFirstIsTotalPreorder();
    ListingSpec(t.ServiceRows(), row => OfferedBy(t, providerId, row), NewerFirst);
    RowsDistinct(t.ServiceRows());
    ScansAreCompleteForServices(t);
    SortBy(Keep(t.ServiceRows(), row => OfferedBy(t, providerId, row)), NewerFirst)
  }

  /** The body of POST /api/services. */
  datatype NewService = NewService(
    categoryId: Option<nat>,
    title: Option<string>,
    description: Option<string>,
    price: Option<real>,
    location: Option<string>,
    latitude: Option<real>,
    longitude: Option<real>,
    serviceType: Option<string>,
    durationEstimate: Option<string>)

  predicate Complete(req: NewService) {
    TruthyId(req.categoryId) && Truthy(req.title) && Truthy(req.description) && TruthyNumber(req.price)
  }

  /** The inserted row: owned by the actor, coordinates stored as NULL when
      falsy, type "fixed" when none is sent, active. */
  function ServiceFor(actor: nat, req: NewService, now: int): Service
    requires Complete(req)
  {
    Service(actor, req.categoryId.value, req.title.value, req.description.value, req.price.value, req.location,
            OrNull(req.latitude), OrNull(req.longitude), Coalesce(req.serviceType, "fixed"), req.durationEstimate, true, now)
  }

  /** `createService`: 400 unless category, title, description and price are
      all truthy; otherwise one new service owned by the actor. The category
      is not looked up. */
  function CreateServiceStep(t: Tables, actor: nat, req: NewService, now: int): (s: Step<nat>)
    ensures s.result.Fail? <==> !Complete(req)
    ensures s.result.Fail? ==> s.result.error == BadRequest && s.tables == t
    ensures s.result.Ok? ==>
              var id := s.result.value;
              && id == t.nextService
              && (t.Wf() ==> id !in t.services)
              && id in s.tables.services
              && s.tables.services == t.services[id := s.tables.services[id]]
              && s.tables.services[id].providerId == actor
              && s.tables.services[id].isActive
              && (req.serviceType.None? ==> s.tables.services[id].serviceType == "fixed")
              && (s.tables.services[id].latitude.Some? <==> TruthyNumber(req.latitude))
              && s.tables.services[id] == ServiceFor(actor, req, now)
              && s.tables == t.(services := s.tables.services, nextService := id + 1)
    ensures t.Wf() && actor in t.users ==> s.tables.Wf()
  {
    if !Complete(req) then Step(t, Fail(BadRequest))
    else
      var id := t.nextService;
      Step(t.(services := t.services[id := ServiceFor(actor, req, now)], nextService := id + 1), Ok(id))
  }

  /** The body of PUT /api/services/:id: absent fields are None. */
  datatype ServicePatch = ServicePatch(
    categoryId: Option<nat>,
    title: Option<string>,
    description: Option<string>,
    price: Option<real>,
    location: Option<string>,
    latitude: Option<real>,
    longitude: Option<real>,
    serviceType: Option<string>,
    durationEstimate: Option<string>,
    isActive: Option<bool>)

  /** The ten `COALESCE(?, column)` assignments. */
  function Merge(s: Service, p: ServicePatch): Service {
    s.(categoryId := Coalesce(p.categoryId, s.categoryId),
       title := Coalesce(p.title, s.title),
       description := Coalesce(p.description, s.description),
       price := Coalesce(p.price, s.price),
       location := CoalesceNullable(p.location, s.location),
       latitude := CoalesceNullable(p.latitude, s.latitude),
       longitude := CoalesceNullable(p.longitude, s.longitude),
       serviceType := Coalesce(p.serviceType, s.serviceType),
       durationEstimate := CoalesceNullable(p.durationEstimate, s.durationEstimate),
       isActive := Coalesce(p.isActive, s.isActive))
  }

  /** The partial-update laws: an empty body changes nothing, sending the
      same body twice equals sending it once, the owner and creation time
      never change, and every supplied field (empty string and zero
      included) is stored as sent. */
  lemma {:induction false} MergeLaws(s: Service, p: ServicePatch)
    ensures Merge(s, ServicePatch(None, None, None, None, None, None, None, None, None, None)) == s
    ensures Merge(Merge(s, p), p) == Merge(s, p)
    ensures Merge(s, p).providerId == s.providerId && Merge(s, p).createdAt == s.createdAt
    ensures p.title.Some? ==> Merge(s, p).title == p.title.value
    ensures p.price.Some? ==> Merge(s, p).price == p.price.value
    ensures p.latitude.Some? ==> Merge(s, p).latitude == p.latitude
    ensures p.isActive.Some? ==> Merge(s, p).isActive == p.isActive.value
    ensures p.isActive.None? ==> Merge(s, p).isActive == s.isActive
  {
  }

  /** `updateService`: 404 for an absent service, 403 unless the actor owns
      it; otherwise the patch is merged into that one row. */
  function UpdateServiceStep(t: Tables, actor: nat, id: nat, patch: ServicePatch): (s: Step<()>)
    ensures s.result == Fail(NotFound) <==> id !in t.services
    ensures s.result == Fail(Forbidden) <==> id in t.services && t.services[id].providerId != actor
    ensures s.result.Ok? <==> id in t.services && t.services[id].providerId == actor
    ensures s.result.Fail? ==> s.tables == t
    ensures s.result.Ok? ==> s.tables == t.(services := t.services[id := Merge(t.services[id], patch)])
    ensures t.Wf() ==> s.tables.Wf()
  {
    if id !in t.services then Step(t, Fail(NotFound))
    else if t.services[id].providerId != actor then Step(t, Fail(Forbidden))
    else Step(t.(services := t.services[id := Merge(t.services[id], patch)]), Ok(()))
  }

  /** Deactivating a service through the update hides it from discovery
      and from the provider's list, but not from its own page. */
  lemma {:induction false} DeactivatedServiceIsHidden(t: Tables, actor: nat, id: nat, patch: ServicePatch, q: ServiceQuery, haversine: Haversine)
    requires UpdateServiceStep(t, actor, id, patch).result.Ok?
    requires patch.isActive == Some(false)
    ensures var t1 := UpdateServiceStep(t, actor, id, patch).tables;
            && (forall x :: x in ServicesFor(t1, q, haversine).rows ==> x.id != id)
            && (forall row :: row in GetServicesByProvider(t1, actor) ==> row.0 != id)
            && (Shown(t1, id) ==> GetServiceById(t1, id).Ok?)
  {
    var t1 := UpdateServiceStep(t, actor, id, patch).tables;
    assert !t1.services[id].isActive;
  }

  /** `deleteService`: 404 for an absent service, 403 unless the actor owns
      it; otherwise the row is gone. Bookings and reviews that name it are
      left as they are. */
  function DeleteServiceStep(t: Tables, actor: nat, id: nat): (s: Step<()>)
    ensures s.result == Fail(NotFound) <==> id !in t.services
    ensures s.result == Fail(Forbidden) <==> id in t.services && t.services[id].providerId != actor
    ensures s.result.Ok? <==> id in t.services && t.services[id].providerId == actor
    ensures s.result.Fail? ==> s.tables == t
    ensures s.result.Ok? ==> s.tables == t.(services := t.services - {id}) && id !in s.tables.services
    ensures t.Wf() ==> s.tables.Wf()
  {
    if id !in t.services then Step(t, Fail(NotFound))
    else if t.services[id].providerId != actor then Step(t, Fail(Forbidden))
    else Step(t.(services := t.services - {id}), Ok(()))
  }

  /** POST /api/services, behind `authorize("provider")`. */
  method CreateService(db: Database, actor: nat, req: NewService, now: int) returns (r: Result<nat>)
    requires db.Valid()
    requires actor in db.users && db.users[actor].role == Provider
    modifies db
    ensures db.Valid()
    ensures var s := CreateServiceStep(old(db.State()), actor, req, now);
            db.State() == s.tables && r == s.result
  {
    if !TruthyId(req.categoryId) || !Truthy(req.title) || !Truthy(req.description) || !TruthyNumber(req.price) {
      return Fail(BadRequest);
    }
    var serviceType := if req.serviceType.Some? then req.serviceType.value else "fixed";
    var id := db.nextService;
    db.services := db.services[id := Service(actor, req.categoryId.value, req.title.value, req.description.value,
                                             req.price.value, req.location, OrNull(req.latitude), OrNull(req.longitude),
                                             serviceType, req.durationEstimate, true, now)];
    db.nextService := id + 1;
    r := Ok(id);
  }

  /** PUT /api/services/:id, behind `authorize("provider")`. */
  method UpdateService(db: Database, actor: nat, id: nat, patch: ServicePatch) returns (r: Result<()>)
    requires db.Valid()
    requires actor in db.users && db.users[actor].role == Provider
    modifies db
    ensures db.Valid()
    ensures var s := UpdateServiceStep(old(db.State()), actor, id, patch);
            db.State() == s.tables && r == s.result
  {
    if id !in db.services {
      return Fail(NotFound);
    }
    if db.services[id].providerId != actor {
      return Fail(Forbidden);
    }
    db.services := db.services[id := Merge(db.services[id], patch)];
    r := Ok(());
  }

  /** DELETE /api/services/:id, behind `authorize("provider")`. */
  method DeleteService(db: Database, actor: nat, id: nat) returns (r: Result<()>)
    requires db.Valid()
    requires actor in db.users && db.users[actor].role == Provider
    modifies db
    ensures db.Valid()
    ensures var s := DeleteServiceStep(old(db.State()), actor, id);
            db.State() == s.tables && r == s.result
  {
    if id !in db.services {
      return Fail(NotFound);
    }
    if db.services[id].providerId != actor {
      return Fail(Forbidden);
    }
    db.services := db.services - {id};
    r := Ok(());
  }
}
