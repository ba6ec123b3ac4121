/** Properties that span several handlers: what one request leaves behind
    as seen by the next. */
module Scenarios {
  import opened Common
  import opened Schema
  import opened AuthMiddleware
  import B = BookingController
  import R = ReviewController
  import S = ServiceController
  import U = UserController
  import C = CategoryController

  /** A booking keeps the price it was made at: the provider may change the
      service's price afterwards, the booking's total does not follow. */
  lemma {:induction false} PriceSnapshotSurvivesServiceUpdate(t: Tables, customer: nat, req: B.NewBooking, now: int, provider: nat, patch: S.ServicePatch)
    requires B.CreateBookingStep(t, customer, req, now).result.Ok?
    ensures var s1 := B.CreateBookingStep(t, customer, req, now);
            var id := s1.result.value;
            var sid := req.serviceId.value;
            var s2 := S.UpdateServiceStep(s1.tables, provider, sid, patch);
            && id in s2.tables.bookings
            && s2.tables.bookings[id].totalPrice == t.services[sid].price
            && (s2.result.Ok? && patch.price.Some? ==> s2.tables.services[sid].price == patch.price.value)
  {
    var s1 := B.CreateBookingStep(t, customer, req, now);
    var s2 := S.UpdateServiceStep(s1.tables, provider, req.serviceId.value, patch);
    assert s2.tables.bookings == s1.tables.bookings;
  }

  /** A completed booking without a review is reviewed by its customer. */
  lemma {:induction false} CompletedBookingIsReviewable(t: Tables, id: nat, rating: real, comment: Option<string>, now: int)
    requires t.Wf() && id != 0 && id in t.bookings
    requires t.bookings[id].status == Completed && !t.HasReview(id)
    requires 1.0 <= rating <= 5.0
    ensures var s := R.CreateReviewStep(t, t.bookings[id].customerId, R.NewReview(Some(id), Some(rating), comment, None, None, None), now);
            && s.result.Ok?
            && s.tables.reviews[s.result.value].providerId == t.bookings[id].providerId
            && s.tables.reviews[s.result.value].rating == rating
  {
  }

  /** The whole happy path: a customer books an active service, its provider
      accepts, the customer marks it completed (which also marks it paid),
      and the customer's review is accepted and attributed to that
      provider. */
  lemma {:induction false} BookAcceptCompleteReview(t: Tables, customer: nat, req: B.NewBooking, rating: real, comment: Option<string>, now: int)
    requires t.Wf() && customer in t.users
    requires TruthyId(req.serviceId) && Truthy(req.scheduledDate) && B.Bookable(t, req.serviceId.value)
    requires 1.0 <= rating <= 5.0
    ensures var s1 := B.CreateBookingStep(t, customer, req, now);
            var id := s1.result.value;
            var provider := t.services[req.serviceId.value].providerId;
            var s2 := B.UpdateStatusStep(s1.tables, provider, id, Some("accepted"), None, now);
            var s3 := B.UpdateStatusStep(s2.tables, customer, id, Some("completed"), None, now);
            var s4 := R.CreateReviewStep(s3.tables, customer, R.NewReview(Some(id), Some(rating), comment, None, None, None), now);
            && s1.result.Ok? && s2.result.Ok? && s3.result.Ok? && s4.result.Ok?
            && s3.tables.bookings[id].payment == Paid
            && s4.tables.reviews[s4.result.value].providerId == provider
            && s4.tables.reviews[s4.result.value].rating == rating
  {
    var s1 := B.CreateBookingStep(t, customer, req, now);
    var id := s1.result.value;
    var provider := t.services[req.serviceId.value].providerId;
    assert s1.tables.Wf() && s1.tables.reviews == t.reviews;
    assert !s1.tables.HasReview(id) by {
      assert id !in t.bookings;
    }
    var b1 := s1.tables.bookings[id];
    assert b1.providerId == provider && b1.customerId == customer;
    B.EveryStatusIsReachable(s1.tables, provider, id, Accepted, None, now);
    var s2 := B.UpdateStatusStep(s1.tables, provider, id, Some("accepted"), None, now);
    var b2 := s2.tables.bookings[id];
    assert s2.tables.Wf() && s2.tables.reviews == s1.tables.reviews;
    assert b2.customerId == customer && b2.providerId == provider;
    B.EveryStatusIsReachable(s2.tables, customer, id, Completed, None, now);
    B.CompletionStamps(s2.tables, customer, id, Some("completed"), None, now);
    var s3 := B.UpdateStatusStep(s2.tables, customer, id, Some("completed"), None, now);
    assert s3.tables.Wf() && s3.tables.reviews == s2.tables.reviews;
    assert s3.tables.bookings[id].customerId == customer && s3.tables.bookings[id].providerId == provider;
    CompletedBookingIsReviewable(s3.tables, id, rating, comment, now);
  }

  /** Deleting a review lets its author review the same booking again. */
  lemma {:induction false} DeleteThenReview(t: Tables, actor: nat, req: R.NewReview, now: int, later: int)
    requires t.Wf()
    requires R.CreateReviewStep(t, actor, req, now).result.Ok?
    ensures var s1 := R.CreateReviewStep(t, actor, req, now);
            var s2 := R.DeleteReviewStep(s1.tables, actor, s1.result.value);
            && s2.result.Ok?
            && R.CreateReviewStep(s2.tables, actor, req, later).result.Ok?
  {
    var s1 := R.CreateReviewStep(t, actor, req, now);
    var id := s1.result.value;
    assert s1.tables.reviews[id].customerId == actor;
    R.DeleteReopensReview(s1.tables, actor, id);
  }

  /** The role behind a token is read at every request: after upgrading,
      a customer's old token passes `authorize("provider")`, which refused it
      before. */
  lemma {:induction false} UpgradeOpensProviderRoutes(t: Tables, header: Option<string>, verify: Verifier)
    requires t.Wf()
    requires Authentication(t, header, verify).Ok?
    requires Authentication(t, header, verify).value.role == Customer
    ensures var u := Authentication(t, header, verify).value;
            var s := U.UpgradeStep(t, u.userId, u.userId);
            && Authorize([Provider], Some(u)) == Reject(Forbidden)
            && s.result.Ok?
            && Authentication(s.tables, header, verify).Ok?
            && Authorize([Provider], Some(Authentication(s.tables, header, verify).value)) == Next
  {
    var u := Authentication(t, header, verify).value;
    var s := U.UpgradeStep(t, u.userId, u.userId);
    assert s.tables.users[u.userId].role == Provider;
  }

  /** Deactivating a service hides it from discovery but does not free its
      category for deletion. */
  lemma {:induction false} DeactivationDoesNotFreeCategory(t: Tables, provider: nat, sid: nat, patch: S.ServicePatch)
    requires t.Wf()
    requires S.UpdateServiceStep(t, provider, sid, patch).result.Ok?
    requires patch.categoryId.None? && patch.isActive == Some(false)
    ensures var s := S.UpdateServiceStep(t, provider, sid, patch);
            && !s.tables.services[sid].isActive
            && C.DeleteCategoryStep(s.tables, t.services[sid].categoryId).result == Fail(BadRequest)
  {
    var s := S.UpdateServiceStep(t, provider, sid, patch);
    C.InactiveServiceBlocksDelete(s.tables, t.services[sid].categoryId, sid);
  }
}
