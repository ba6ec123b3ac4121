/** backend/controllers/reviewController.js: the review eligibility gate,
    the provider's response, deletion by the author, and the two paginated
    review listings. */
module ReviewController {
  import opened Common
  import opened Sorting
  import opened Schema

  /** The body of POST /api/reviews. */
  datatype NewReview = NewReview(
    bookingId: Option<nat>,
    rating: Option<real>,
    comment: Option<string>,
    communication: Option<real>,
    quality: Option<real>,
    timeliness: Option<real>)

  /** The checks made before the database is read: a truthy booking id and
      a truthy rating between 1 and 5. */
  predicate WellFormed(req: NewReview) {
    TruthyId(req.bookingId) && TruthyNumber(req.rating) && 1.0 <= req.rating.value <= 5.0
  }

  /** The booking may be reviewed: it is completed and has no review yet. */
  predicate Eligible(t: Tables, bookingId: nat) {
    bookingId in t.bookings && t.bookings[bookingId].status == Completed && !t.HasReview(bookingId)
  }

  /** The inserted row: ids copied from the booking, each missing or zero
      sub-rating stored as NULL. */
  function ReviewFor(b: Booking, req: NewReview, now: int): Review
    requires WellFormed(req)
  {
    Review(req.bookingId.value, b.serviceId, b.customerId, b.providerId, req.rating.value, req.comment,
           OrNull(req.communication), OrNull(req.quality), OrNull(req.timeliness), None, now)
  }

  function NewReviewNotice(providerId: nat, reviewId: nat): Notification {
    Notification(providerId, "new_review", "New Review Received", reviewId)
  }

  /** `createReview`, with its checks in order: 400 for a malformed body, 404
      for an absent booking, 403 unless the actor is the booking's customer,
      400 unless the booking is completed, 400 when it already has a review.
      Otherwise one review and one `new_review` notification to the
      booking's provider. */
  function CreateReviewStep(t: Tables, actor: nat, req: NewReview, now: int): (s: Step<nat>)
    ensures s.result == Fail(NotFound) <==> WellFormed(req) && req.bookingId.value !in t.bookings
    ensures s.result == Fail(Forbidden) <==>
              WellFormed(req) && req.bookingId.value in t.bookings && t.bookings[req.bookingId.value].customerId != actor
    ensures s.result == Fail(BadRequest) <==>
              !WellFormed(req)
              || (req.bookingId.value in t.bookings && t.bookings[req.bookingId.value].customerId == actor
                  && !Eligible(t, req.bookingId.value))
    ensures s.result.Ok? <==>
              WellFormed(req) && Eligible(t, req.bookingId.value) && t.bookings[req.bookingId.value].customerId == actor
    ensures s.result.Fail? ==> s.tables == t
    ensures s.result.Ok? ==>
              var id := s.result.value;
              var b := t.bookings[req.bookingId.value];
              && id == t.nextReview
              && (t.Wf() ==> id !in t.reviews)
              && id in s.tables.reviews
              && s.tables.reviews == t.reviews[id := s.tables.reviews[id]]
              && s.tables.reviews[id].bookingId == req.bookingId.value
              && ReviewOf(s.tables.reviews[id], b)
              && s.tables.reviews[id].rating == req.rating.value
              && s.tables.reviews[id] == ReviewFor(b, req, now)
              && s.tables.notifications == t.notifications + [NewReviewNotice(b.providerId, id)]
              && s.tables == t.(reviews := s.tables.reviews, notifications := s.tables.notifications, nextReview := id + 1)
    ensures t.Wf() ==> s.tables.Wf()
  {
    if !WellFormed(req) then Step(t, Fail(BadRequest))
    else if req.bookingId.value !in t.bookings then Step(t, Fail(NotFound))
    else
      var b := t.bookings[req.bookingId.value];
      if b.customerId != actor then Step(t, Fail(Forbidden))
      else if b.status != Completed then Step(t, Fail(BadRequest))
      else if t.HasReview(req.bookingId.value) then Step(t, Fail(BadRequest))
      else
        var id := t.nextReview;
        Step(t.(reviews := t.reviews[id := ReviewFor(b, req, now)],
                notifications := t.notifications + [NewReviewNotice(b.providerId, id)],
                nextReview := id + 1),
             Ok(id))
  }

  /** Once a booking has been reviewed, every further review of it is refused
      with 400, whoever sends it and whatever it says, so long as the first
      review is not deleted. */
  lemma {:induction false} SecondReviewRefused(t: Tables, actor: nat, req: NewReview, now: int, actor2: nat, req2: NewReview, now2: int)
    requires CreateReviewStep(t, actor, req, now).result.Ok?
    requires WellFormed(req2) && req2.bookingId == req.bookingId
    ensures var t1 := CreateReviewStep(t, actor, req, now).tables;
            CreateReviewStep(t1, actor2, req2, now2).result.Fail?
    ensures var t1 := CreateReviewStep(t, actor, req, now).tables;
            actor2 == actor ==> CreateReviewStep(t1, actor2, req2, now2).result == Fail(BadRequest)
  {
    var s := CreateReviewStep(t, actor, req, now);
    assert s.tables.reviews[s.result.value].bookingId == req2.bookingId.value;
    assert s.tables.HasReview(req2.bookingId.value);
  }

  /** A review exists only for a completed booking, by its customer: a
      booking in any other status is refused with 400. */
  lemma {:induction false} OnlyCompletedBookingsAreReviewed(t: Tables, actor: nat, req: NewReview, now: int)
    requires WellFormed(req) && req.bookingId.value in t.bookings
    requires t.bookings[req.bookingId.value].customerId == actor
    requires t.bookings[req.bookingId.value].status != Completed
    ensures CreateReviewStep(t, actor, req, now).result == Fail(BadRequest)
  {
  }

  /** `respondToReview`: 400 for an empty response, 404 for an absent review,
      403 unless the actor is the review's provider; otherwise the
      response column is overwritten and nothing else changes. */
  function RespondStep(t: Tables, actor: nat, id: nat, response: Option<string>): (s: Step<()>)
    ensures s.result == Fail(BadRequest) <==> !Truthy(response)
    ensures s.result == Fail(NotFound) <==> Truthy(response) && id !in t.reviews
    ensures s.result == Fail(Forbidden) <==> Truthy(response) && id in t.reviews && t.reviews[id].providerId != actor
    ensures s.result.Ok? <==> Truthy(response) && id in t.reviews && t.reviews[id].providerId == actor
    ensures s.result.Fail? ==> s.tables == t
    ensures s.result.Ok? ==>
              && s.tables == t.(reviews := t.reviews[id := t.reviews[id].(providerResponse := response)])
              && s.tables.reviews[id].providerResponse == response
    ensures t.Wf() ==> s.tables.Wf()
  {
    if !Truthy(response) then Step(t, Fail(BadRequest))
    else if id !in t.reviews then Step(t, Fail(NotFound))
    else if t.reviews[id].providerId != actor then Step(t, Fail(Forbidden))
    else Step(t.(reviews := t.reviews[id := t.reviews[id].(providerResponse := response)]), Ok(()))
  }

  /** Responding is idempotent, and a later response replaces an earlier one. */
  lemma {:induction false} RespondIdempotent(t: Tables, actor: nat, id: nat, first: Option<string>, second: Option<string>)
    requires RespondStep(t, actor, id, first).result.Ok?
    requires Truthy(second)
    ensures var t1 := RespondStep(t, actor, id, first).tables;
            RespondStep(t1, actor, id, first).tables == t1
    ensures var t1 := RespondStep(t, actor, id, first).tables;
            RespondStep(t1, actor, id, second).tables == RespondStep(t, actor, id, second).tables
  {
    var t1 := RespondStep(t, actor, id, first).tables;
    assert t1.reviews[id := t1.reviews[id].(providerResponse := first)] == t1.reviews;
  }

  /** `deleteReview`: 404 for an absent review, 403 unless the actor wrote
      it; otherwise the review row is gone and nothing else changes. */
  function DeleteReviewStep(t: Tables, actor: nat, id: nat): (s: Step<()>)
    ensures s.result == Fail(NotFound) <==> id !in t.reviews
    ensures s.result == Fail(Forbidden) <==> id in t.reviews && t.reviews[id].customerId != actor
    ensures s.result.Ok? <==> id in t.reviews && t.reviews[id].customerId == actor
    ensures s.result.Fail? ==> s.tables == t
    ensures s.result.Ok? ==> s.tables == t.(reviews := t.reviews - {id}) && id !in s.tables.reviews
    ensures t.Wf() ==> s.tables.Wf()
  {
    if id !in t.reviews then Step(t, Fail(NotFound))
    else if t.reviews[id].customerId != actor then Step(t, Fail(Forbidden))
    else Step(t.(reviews := t.reviews - {id}), Ok(()))
  }

  /** Deleting the review of a booking makes the booking eligible again. */
  lemma {:induction false} DeleteReopensReview(t: Tables, actor: nat, id: nat)
    requires t.Wf()
    requires DeleteReviewStep(t, actor, id).result.Ok?
    requires t.bookings[t.reviews[id].bookingId].status == Completed
    ensures Eligible(DeleteReviewStep(t, actor, id).tables, t.reviews[id].bookingId)
  {
    var t1 := DeleteReviewStep(t, actor, id).tables;
    var bid := t.reviews[id].bookingId;
    assert forall k :: k in t1.reviews ==> k in t.reviews && k != id;
  }

  /** `ORDER BY r.created_at DESC`. */
  predicate NewerFirst(a: (nat, Review), b: (nat, Review)) {
    a.1.createdAt >= b.1.createdAt
  }

  lemma NewerFirstIsTotalPreorder()
    ensures TotalPreorder(NewerFirst)
  {
  }

  /** A page of reviews with the `meta` counts the listing reports. The
      listings take `limit` and `offset` as None when the query string
      omits them, and default them to 10 and 0. */
  datatype ReviewPage = ReviewPage(rows: seq<(nat, Review)>, total: nat, limit: nat, offset: nat)

  /** The WHERE clauses of the count queries. */
  predicate ForService(serviceId: nat, row: (nat, Review)) { row.1.serviceId == serviceId }
  predicate ForProvider(providerId: nat, row: (nat, Review)) { row.1.providerId == providerId }

  /** The reviews of a service whose customer row exists (the inner join). */
  predicate OfService(t: Tables, serviceId: nat, row: (nat, Review)) {
    row.1.serviceId == serviceId && row.1.customerId in t.users
  }

  /** The reviews of a provider whose customer and service rows exist. */
  predicate OfProvider(t: Tables, providerId: nat, row: (nat, Review)) {
    row.1.providerId == providerId && row.1.customerId in t.users && row.1.serviceId in t.services
  }

  /** The matching reviews, newest first, before LIMIT/OFFSET. */
  function Listing(t: Tables, p: ((nat, Review)) -> bool): (r: seq<(nat, Review)>)
    ensures SortedBy(r, NewerFirst)
    ensures t.Wf() ==> forall row :: row in r <==> row.0 in t.reviews && t.reviews[row.0] == row.1 && p(row)
    ensures NoDuplicates(r)
  {
    NewerFirstIsTotalPreorder();
    ListingSpec(t.ReviewRows(), p, NewerFirst);
    RowsDistinct(t.ReviewRows());
    SortBy(Keep(t.ReviewRows(), p), NewerFirst)
  }

  /** `SELECT COUNT(*) FROM reviews WHERE ...`, without the joins. */
  function CountWhere(t: Tables, p: ((nat, Review)) -> bool): nat {
    |Keep(t.ReviewRows(), p)|
  }

  /** `getServiceReviews`: the page at `offset` of the service's reviews,
      newest first, and the count of all its reviews. */
  function ServiceReviews(t: Tables, serviceId: nat, limit: Option<nat>, offset: Option<nat>): (r: ReviewPage)
    ensures r.rows == Page(Listing(t, row => OfService(t, serviceId, row)), Coalesce(offset, 0), Coalesce(limit, 10))
    ensures r.total == CountWhere(t, row => ForService(serviceId, row))
    ensures r.limit == Coalesce(limit, 10) && r.offset == Coalesce(offset, 0)
    ensures |r.rows| <= Coalesce(limit, 10) && SortedBy(r.rows, NewerFirst)
    ensures t.Wf() ==> forall row :: row in r.rows ==> row.0 in t.reviews && t.reviews[row.0] == row.1 && row.1.serviceId == serviceId
    ensures t.Wf() ==> r.total == |Listing(t, row => OfService(t, serviceId, row))|
  {
    var all := Listing(t, row => OfService(t, serviceId, row));
    var rows := Page(all, Coalesce(offset, 0), Coalesce(limit, 10));
    PageKeepsOrder(all, Coalesce(offset, 0), Coalesce(limit, 10), NewerFirst);
    assert forall row :: row in rows ==> row in all;
    ServiceTotalMatchesListing(t, serviceId);
    ReviewPage(rows, CountWhere(t, row => ForService(serviceId, row)), Coalesce(limit, 10), Coalesce(offset, 0))
  }

  /** On a well-formed database the join drops no review of a service, so
      `total` is the length of the unpaged listing. */
  lemma {:induction false} ServiceTotalMatchesListing(t: Tables, serviceId: nat)
    ensures t.Wf() ==> |Listing(t, row => OfService(t, serviceId, row))| == CountWhere(t, row => ForService(serviceId, row))
  {
    if !t.Wf() {
      return;
    }
    ScansAreComplete(t);
    var rows := t.ReviewRows();
    forall i | 0 <= i < |rows|
      ensures OfService(t, serviceId, rows[i]) <==> ForService(serviceId, rows[i])
    {
      assert rows[i] in rows;
      var rv := t.reviews[rows[i].0];
      assert rv.customerId == t.bookings[rv.bookingId].customerId;
    }
    KeepCongruent(rows, row => OfService(t, serviceId, row), row => ForService(serviceId, row));
  }

  /** `getProviderReviews`: the page at `offset` of the provider's reviews,
      newest first, and the count of all its reviews. The count does not
      join, so it also counts reviews whose service row is gone, which the
      listing leaves out. */
  function ProviderReviews(t: Tables, providerId: nat, limit: Option<nat>, offset: Option<nat>): (r: ReviewPage)
    ensures r.rows == Page(Listing(t, row => OfProvider(t, providerId, row)), Coalesce(offset, 0), Coalesce(limit, 10))
    ensures r.total == CountWhere(t, row => ForProvider(providerId, row))
    ensures r.limit == Coalesce(limit, 10) && r.offset == Coalesce(offset, 0)
    ensures |r.rows| <= Coalesce(limit, 10) && SortedBy(r.rows, NewerFirst)
    ensures t.Wf() ==> forall row :: row in r.rows ==> row.0 in t.reviews && t.reviews[row.0] == row.1 && row.1.providerId == providerId
    ensures r.total >= |Listing(t, row => OfProvider(t, providerId, row))|
  {
    var all := Listing(t, row => OfProvider(t, providerId, row));
    KeepMonotone(t.ReviewRows(), row => OfProvider(t, providerId, row), row => ForProvider(providerId, row));
    var rows := Page(all, Coalesce(offset, 0), Coalesce(limit, 10));
    PageKeepsOrder(all, Coalesce(offset, 0), Coalesce(limit, 10), NewerFirst);
    assert forall row :: row in rows ==> row in all;
    ReviewPage(rows, CountWhere(t, row => ForProvider(providerId, row)), Coalesce(limit, 10), Coalesce(offset, 0))
  }

  /** POST /api/reviews, behind `authorize("customer")`. */
  method CreateReview(db: Database, actor: nat, req: NewReview, now: int) returns (r: Result<nat>)
    requires db.Valid()
    requires actor in db.users && db.users[actor].role == Customer
    modifies db
    ensures db.Valid()
    ensures var s := CreateReviewStep(old(db.State()), actor, req, now);
            db.State() == s.tables && r == s.result
  {
    if !TruthyId(req.bookingId) || !TruthyNumber(req.rating) {
      return Fail(BadRequest);
    }
    if req.rating.value < 1.0 || req.rating.value > 5.0 {
      return Fail(BadRequest);
    }
    var bookingId := req.bookingId.value;
    if bookingId !in db.bookings {
      return Fail(NotFound);
    }
    var booking := db.bookings[bookingId];
    if booking.customerId != actor {
      return Fail(Forbidden);
    }
    if booking.status != Completed {
      return Fail(BadRequest);
    }
    if exists k :: k in db.reviews && db.reviews[k].bookingId == bookingId {
      return Fail(BadRequest);
    }
    var id := db.nextReview;
    db.reviews := db.reviews[id := Review(bookingId, booking.serviceId, booking.customerId, booking.providerId,
                                          req.rating.value, req.comment, OrNull(req.communication),
                                          OrNull(req.quality), OrNull(req.timeliness), None, now)];
    db.nextReview := id + 1;
    db.notifications := db.notifications + [Notification(booking.providerId, "new_review", "New Review Received", id)];
    r := Ok(id);
  }

  /** PUT /api/reviews/:id/response, behind `authorize("provider")`. */
  method RespondToReview(db: Database, actor: nat, id: nat, response: Option<string>) returns (r: Result<()>)
    requires db.Valid()
    requires actor in db.users && db.users[actor].role == Provider
    modifies db
    ensures db.Valid()
    ensures var s := RespondStep(old(db.State()), actor, id, response);
            db.State() == s.tables && r == s.result
  {
    if !Truthy(response) {
      return Fail(BadRequest);
    }
    if id !in db.reviews {
      return Fail(NotFound);
    }
    if db.reviews[id].providerId != actor {
      return Fail(Forbidden);
    }
    db.reviews := db.reviews[id := db.reviews[id].(providerResponse := response)];
    r := Ok(());
  }

  /** DELETE /api/reviews/:id, behind `authorize("customer")`. */
  method DeleteReview(db: Database, actor: nat, id: nat) returns (r: Result<()>)
    requires db.Valid()
    requires actor in db.users && db.users[actor].role == Customer
    modifies db
    ensures db.Valid()
    ensures var s := DeleteReviewStep(old(db.State()), actor, id);
            db.State() == s.tables && r == s.result
  {
    if id !in db.reviews {
      return Fail(NotFound);
    }
    if db.reviews[id].customerId != actor {
      return Fail(Forbidden);
    }
    db.reviews := db.reviews - {id};
    r := Ok(());
  }
}
