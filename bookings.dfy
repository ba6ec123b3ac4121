/** backend/controllers/bookingController.js: creating a booking against an
    active service, the read guards, and the status update with its role
    gate, its side effects and its notification table.

    Each writing handler is a pure step on `Tables` (what the database looks
    like afterwards and what the handler answers) and a method on the shared
    `Database` that performs the same writes one statement at a time. */
module BookingController {
  import opened Common
  import opened Sorting
  import opened Schema

  /** The body of POST /api/bookings. */
  datatype NewBooking = NewBooking(serviceId: Option<nat>, scheduledDate: Option<string>, customerNotes: Option<string>)

  /** `SELECT ... FROM services WHERE service_id = ? AND is_active = TRUE` finds a row. */
  predicate Bookable(t: Tables, serviceId: nat) {
    serviceId in t.services && t.services[serviceId].isActive
  }

  function NewBookingNotice(providerId: nat, bookingId: nat): Notification {
    Notification(providerId, "new_booking", "New Booking Request", bookingId)
  }

  /** The booking row `createBooking` inserts: the service's provider and
      price copied at this moment, status pending. */
  function BookingFor(serviceId: nat, svc: Service, actor: nat, req: NewBooking, now: int): Booking
    requires req.scheduledDate.Some?
  {
    Booking(serviceId, actor, svc.providerId, req.scheduledDate.value, svc.price, req.customerNotes,
            Pending, None, None, PaymentDefault, now)
  }

  /** `createBooking`: 400 without service id or scheduled date, 404 when the
      service is absent or inactive; otherwise one new pending booking that
      snapshots the service's provider and price, and one `new_booking`
      notification to that provider naming the new booking. */
  function CreateBookingStep(t: Tables, actor: nat, req: NewBooking, now: int): (s: Step<nat>)
    ensures s.result == Fail(BadRequest) <==> !TruthyId(req.serviceId) || !Truthy(req.scheduledDate)
    ensures s.result == Fail(NotFound) <==>
              TruthyId(req.serviceId) && Truthy(req.scheduledDate) && !Bookable(t, req.serviceId.value)
    ensures s.result.Fail? ==> s.tables == t
    ensures s.result.Ok? ==>
              var id := s.result.value;
              var svc := t.services[req.serviceId.value];
              && id == t.nextBooking
              && (t.Wf() ==> id !in t.bookings)
              && id in s.tables.bookings
              && s.tables.bookings == t.bookings[id := s.tables.bookings[id]]
              && s.tables.bookings[id].customerId == actor
              && s.tables.bookings[id].providerId == svc.providerId
              && s.tables.bookings[id].totalPrice == svc.price
              && s.tables.bookings[id].status == Pending
              && s.tables.bookings[id] == BookingFor(req.serviceId.value, svc, actor, req, now)
              && s.tables.notifications == t.notifications + [NewBookingNotice(svc.providerId, id)]
              && s.tables == t.(bookings := s.tables.bookings, notifications := s.tables.notifications, nextBooking := id + 1)
    ensures t.Wf() && actor in t.users ==> s.tables.Wf()
  {
    if !TruthyId(req.serviceId) || !Truthy(req.scheduledDate) then Step(t, Fail(BadRequest))
    else if !Bookable(t, req.serviceId.value) then Step(t, Fail(NotFound))
    else
      var svc := t.services[req.serviceId.value];
      var id := t.nextBooking;
      Step(t.(bookings := t.bookings[id := BookingFor(req.serviceId.value, svc, actor, req, now)],
              notifications := t.notifications + [NewBookingNotice(svc.providerId, id)],
              nextBooking := id + 1),
           Ok(id))
  }

  /** The five strings `validStatuses` accepts. */
  function StatusName(st: BookingStatus): string {
    match st
    case Pending => "pending"
    case Accepted => "accepted"
    case Rejected => "rejected"
    case Completed => "completed"
    case Cancelled => "cancelled"
  }

  const ValidStatuses: seq<string> := ["pending", "accepted", "rejected", "completed", "cancelled"]

  /** `validStatuses.includes(status)`, with the status it names. */
  function ParseStatus(s: string): (st: Option<BookingStatus>)
    ensures st.None? <==> s !in ValidStatuses
    ensures st.Some? ==> StatusName(st.value) == s
  {
    if s == "pending" then Some(Pending)
    else if s == "accepted" then Some(Accepted)
    else if s == "rejected" then Some(Rejected)
    else if s == "completed" then Some(Completed)
    else if s == "cancelled" then Some(Cancelled)
    else None
  }

  lemma {:induction false} StatusNameRoundTrip(st: BookingStatus)
    ensures StatusName(st) in ValidStatuses
    ensures ParseStatus(StatusName(st)) == Some(st)
  {
    match st
    case Pending =>
    case Accepted =>
    case Rejected =>
    case Completed =>
    case Cancelled =>
  }

  /** The request's `status` is present and one of the five values. */
  predicate ValidTarget(status: Option<string>) {
    Truthy(status) && ParseStatus(status.value).Some?
  }

  function Target(status: Option<string>): BookingStatus
    requires ValidTarget(status)
  {
    ParseStatus(status.value).value
  }

  /** The authorization checks of `updateBookingStatus`, keyed on the target
      status alone: accept and reject need the booking's provider, cancel
      its customer, complete either party, and pending nobody in particular. */
  predicate MayTarget(st: BookingStatus, b: Booking, actor: nat) {
    match st
    case Accepted => b.providerId == actor
    case Rejected => b.providerId == actor
    case Cancelled => b.customerId == actor
    case Completed => b.customerId == actor || b.providerId == actor
    case Pending => true
  }

  /** The UPDATE: status overwritten, `provider_response` replaced when a
      non-empty one is given, and for a completed target `completed_at` and
      `payment_status = "paid"` stamped. */
  function Retarget(b: Booking, st: BookingStatus, response: Option<string>, now: int): Booking {
    b.(status := st,
       providerResponse := if Truthy(response) then response else b.providerResponse,
       completedAt := if st == Completed then Some(now) else b.completedAt,
       payment := if st == Completed then Paid else b.payment)
  }

  /** `recipientId` of the notification if-chain: null for pending. */
  function Recipient(st: BookingStatus, b: Booking): Option<nat> {
    match st
    case Pending => None
    case Cancelled => Some(b.providerId)
    case _ => Some(b.customerId)
  }

  function NoticeTitle(st: BookingStatus): string {
    match st
    case Pending => ""
    case Accepted => "Booking Accepted"
    case Rejected => "Booking Rejected"
    case Completed => "Service Completed"
    case Cancelled => "Booking Cancelled"
  }

  /** The notifications the status write emits: one of type `booking_<status>`
      for the recipient when `recipientId` is truthy, none otherwise. */
  function StatusNotices(st: BookingStatus, b: Booking, id: nat): seq<Notification> {
    var r := Recipient(st, b);
    if r.Some? && r.value != 0 then [Notification(r.value, "booking_" + StatusName(st), NoticeTitle(st), id)] else []
  }

  /** `updateBookingStatus`: 400 for a missing or unknown status before the
      booking is read, 404 for an absent booking, 403 when the actor fails
      the gate of the target status; otherwise the booking is retargeted
      whatever its current status, and the notification table's entry for
      the target is appended. */
  function UpdateStatusStep(t: Tables, actor: nat, id: nat, status: Option<string>, response: Option<string>, now: int): (s: Step<()>)
    ensures s.result == Fail(BadRequest) <==> !ValidTarget(status)
    ensures s.result == Fail(NotFound) <==> ValidTarget(status) && id !in t.bookings
    ensures s.result == Fail(Forbidden) <==>
              ValidTarget(status) && id in t.bookings && !MayTarget(Target(status), t.bookings[id], actor)
    ensures s.result.Fail? ==> s.tables == t
    ensures s.result.Ok? ==>
              var st := Target(status);
              var b := t.bookings[id];
              && s.tables.bookings == t.bookings[id := Retarget(b, st, response, now)]
              && s.tables.notifications == t.notifications + StatusNotices(st, b, id)
              && s.tables == t.(bookings := s.tables.bookings, notifications := s.tables.notifications)
    ensures t.Wf() ==> s.tables.Wf()
  {
    if !ValidTarget(status) then Step(t, Fail(BadRequest))
    else if id !in t.bookings then Step(t, Fail(NotFound))
    else
      var st := Target(status);
      var b := t.bookings[id];
      if !MayTarget(st, b, actor) then Step(t, Fail(Forbidden))
      else Step(t.(bookings := t.bookings[id := Retarget(b, st, response, now)],
                   notifications := t.notifications + StatusNotices(st, b, id)),
                Ok(()))
  }

  /** No status is terminal: a party the gate admits moves a booking to any
      of the five statuses from any current status, rejected, completed and
      cancelled included. */
  lemma {:induction false} EveryStatusIsReachable(t: Tables, actor: nat, id: nat, st: BookingStatus, response: Option<string>, now: int)
    requires id in t.bookings
    requires MayTarget(st, t.bookings[id], actor)
    ensures var s := UpdateStatusStep(t, actor, id, Some(StatusName(st)), response, now);
            s.result.Ok? && s.tables.bookings[id].status == st
  {
    StatusNameRoundTrip(st);
  }

  /** Only a completed target stamps `completed_at` and `payment_status`. */
  lemma {:induction false} CompletionStamps(t: Tables, actor: nat, id: nat, status: Option<string>, response: Option<string>, now: int)
    requires UpdateStatusStep(t, actor, id, status, response, now).result.Ok?
    ensures var after := UpdateStatusStep(t, actor, id, status, response, now).tables.bookings[id];
            var before := t.bookings[id];
            if Target(status) == Completed then after.completedAt == Some(now) && after.payment == Paid
            else after.completedAt == before.completedAt && after.payment == before.payment
  {
  }

  /** The notification table of a successful update, on a well-formed
      database: pending adds nothing; every other target adds exactly one
      notification, of type `booking_<status>`, naming the booking, sent to
      the customer (accepted, rejected, completed) or the provider
      (cancelled) with its fixed title. */
  lemma {:induction false} NotificationTable(t: Tables, actor: nat, id: nat, st: BookingStatus, response: Option<string>, now: int)
    requires t.Wf()
    requires UpdateStatusStep(t, actor, id, Some(StatusName(st)), response, now).result.Ok?
    ensures var s := UpdateStatusStep(t, actor, id, Some(StatusName(st)), response, now);
            var b := t.bookings[id];
            match st
            case Pending => s.tables.notifications == t.notifications
            case Accepted => s.tables.notifications == t.notifications + [Notification(b.customerId, "booking_accepted", "Booking Accepted", id)]
            case Rejected => s.tables.notifications == t.notifications + [Notification(b.customerId, "booking_rejected", "Booking Rejected", id)]
            case Completed => s.tables.notifications == t.notifications + [Notification(b.customerId, "booking_completed", "Service Completed", id)]
            case Cancelled => s.tables.notifications == t.notifications + [Notification(b.providerId, "booking_cancelled", "Booking Cancelled", id)]
  {
    StatusNameRoundTrip(st);
    var b := t.bookings[id];
    assert b.customerId in t.users && b.providerId in t.users;
    assert b.customerId != 0 && b.providerId != 0;
    match st
    case Pending =>
    case Accepted => assert "booking_" + StatusName(st) == "booking_accepted";
    case Rejected => assert "booking_" + StatusName(st) == "booking_rejected";
    case Completed => assert "booking_" + StatusName(st) == "booking_completed";
    case Cancelled => assert "booking_" + StatusName(st) == "booking_cancelled";
  }

  /** The update is not idempotent and never refuses a repeat: applying the
      same accepted request twice succeeds both times and notifies the
      customer twice. */
  lemma {:induction false} RepeatedUpdateSucceeds(t: Tables, actor: nat, id: nat, response: Option<string>, now: int)
    requires t.Wf()
    requires id in t.bookings && t.bookings[id].providerId == actor
    ensures var s1 := UpdateStatusStep(t, actor, id, Some("accepted"), response, now);
            var s2 := UpdateStatusStep(s1.tables, actor, id, Some("accepted"), response, now);
            && s1.result.Ok? && s2.result.Ok?
            && s2.tables.bookings[id].status == Accepted
            && |s2.tables.notifications| == |t.notifications| + 2
  {
    var s1 := UpdateStatusStep(t, actor, id, Some("accepted"), response, now);
    NotificationTable(t, actor, id, Accepted, response, now);
    NotificationTable(s1.tables, actor, id, Accepted, response, now);
  }

  /** A status change never touches what the booking copied at creation. */
  lemma {:induction false} UpdateKeepsSnapshot(t: Tables, actor: nat, id: nat, status: Option<string>, response: Option<string>, now: int)
    ensures var s := UpdateStatusStep(t, actor, id, status, response, now);
            && s.tables.bookings.Keys == t.bookings.Keys
            && forall k :: k in t.bookings ==>
                 var a := s.tables.bookings[k];
                 var b := t.bookings[k];
                 a.serviceId == b.serviceId && a.customerId == b.customerId && a.providerId == b.providerId
                 && a.totalPrice == b.totalPrice && a.createdAt == b.createdAt
  {
  }

  /** The ones allowed to read a booking: its customer and its provider. */
  predicate IsParty(b: Booking, actor: nat) {
    b.customerId == actor || b.providerId == actor
  }

  /** The inner joins of the booking queries find the service and both users. */
  predicate Joined(t: Tables, b: Booking) {
    b.serviceId in t.services && b.customerId in t.users && b.providerId in t.users
  }

  /** `getBookingById`: 404 when the joined row is missing, 403 unless the actor is a party. */
  function GetBookingById(t: Tables, actor: nat, id: nat): (r: Result<Booking>)
    ensures r == Fail(NotFound) <==> !(id in t.bookings && Joined(t, t.bookings[id]))
    ensures r == Fail(Forbidden) <==> id in t.bookings && Joined(t, t.bookings[id]) && !IsParty(t.bookings[id], actor)
    ensures r.Ok? ==> id in t.bookings && r.value == t.bookings[id] && IsParty(r.value, actor)
  {
    if id !in t.bookings || !Joined(t, t.bookings[id]) then Fail(NotFound)
    else if !IsParty(t.bookings[id], actor) then Fail(Forbidden)
    else Ok(t.bookings[id])
  }

  /** `ORDER BY b.created_at DESC`. */
  predicate NewerFirst(a: (nat, Booking), b: (nat, Booking)) {
    a.1.createdAt >= b.1.createdAt
  }

  lemma NewerFirstIsTotalPreorder()
    ensures TotalPreorder(NewerFirst)
  {
  }

  predicate CustomerRow(t: Tables, customerId: nat, row: (nat, Booking)) {
    row.1.customerId == customerId && row.1.serviceId in t.services && row.1.providerId in t.users
  }

  predicate ProviderRow(t: Tables, providerId: nat, row: (nat, Booking)) {
    row.1.providerId == providerId && row.1.serviceId in t.services && row.1.customerId in t.users
  }

  /** A booking listing: the joined rows that pass `p`, newest first. */
  function Listing(t: Tables, p: ((nat, Booking)) -> bool): (r: seq<(nat, Booking)>)
    ensures SortedBy(r, NewerFirst)
    ensures t.Wf() ==> forall row :: row in r <==> row.0 in t.bookings && t.bookings[row.0] == row.1 && p(row)
    ensures NoDuplicates(r)
  {
    NewerFirstIsTotalPreorder();
    ListingSpec(t.BookingRows(), p, NewerFirst);
    RowsDistinct(t.BookingRows());
    SortBy(Keep(t.BookingRows(), p), NewerFirst)
  }

  /** `getCustomerBookings`: 403 unless the path id is the actor; otherwise
      each of that customer's bookings once, newest first. */
  function GetCustomerBookings(t: Tables, actor: nat, customerId: nat): (r: Result<seq<(nat, Booking)>>)
    ensures r.Fail? <==> customerId != actor
    ensures r.Fail? ==> r.error == Forbidden
    ensures r.Ok? ==> SortedBy(r.value, NewerFirst) && NoDuplicates(r.value)
    ensures r.Ok? && t.Wf() ==>
              forall row :: row in r.value <==> row.0 in t.bookings && t.bookings[row.0] == row.1 && CustomerRow(t, customerId, row)
  {
    if customerId != actor then Fail(Forbidden)
    else Ok(Listing(t, row => CustomerRow(t, customerId, row)))
  }

  /** `getProviderBookings`: 403 unless the path id is the actor; otherwise
      each of that provider's bookings once, newest first. */
  function GetProviderBookings(t: Tables, actor: nat, providerId: nat): (r: Result<seq<(nat, Booking)>>)
    ensures r.Fail? <==> providerId != actor
    ensures r.Fail? ==> r.error == Forbidden
    ensures r.Ok? ==> SortedBy(r.value, NewerFirst) && NoDuplicates(r.value)
    ensures r.Ok? && t.Wf() ==>
              forall row :: row in r.value <==> row.0 in t.bookings && t.bookings[row.0] == row.1 && ProviderRow(t, providerId, row)
  {
    if providerId != actor then Fail(Forbidden)
    else Ok(Listing(t, row => ProviderRow(t, providerId, row)))
  }

  /** POST /api/bookings, behind `authorize("customer")`. */
  method CreateBooking(db: Database, actor: nat, req: NewBooking, now: int) returns (r: Result<nat>)
    requires db.Valid()
    requires actor in db.users && db.users[actor].role == Customer
    modifies db
    ensures db.Valid()
    ensures var s := CreateBookingStep(old(db.State()), actor, req, now);
            db.State() == s.tables && r == s.result
  {
    if !TruthyId(req.serviceId) || !Truthy(req.scheduledDate) {
      return Fail(BadRequest);
    }
    var serviceId := req.serviceId.value;
    if serviceId !in db.services || !db.services[serviceId].isActive {
      return Fail(NotFound);
    }
    var svc := db.services[serviceId];
    var id := db.nextBooking;
    db.bookings := db.bookings[id := Booking(serviceId, actor, svc.providerId, req.scheduledDate.value, svc.price,
                                             req.customerNotes, Pending, None, None, PaymentDefault, now)];
    db.nextBooking := id + 1;
    db.notifications := db.notifications + [Notification(svc.providerId, "new_booking", "New Booking Request", id)];
    r := Ok(id);
  }

  /** The notification if-chain of `updateBookingStatus`: picks the
      recipient and title for the new status and inserts the notification
      when there is a recipient. */
  method NotifyStatusChange(db: Database, id: nat, st: BookingStatus, booking: Booking)
    modifies db
    ensures db.State() == old(db.State()).(notifications := old(db.notifications) + StatusNotices(st, booking, id))
  {
    var recipient: Option<nat> := None;
    var title := "";
    if st == Accepted {
      recipient, title := Some(booking.customerId), "Booking Accepted";
    } else if st == Rejected {
      recipient, title := Some(booking.customerId), "Booking Rejected";
    } else if st == Completed {
      recipient, title := Some(booking.customerId), "Service Completed";
    } else if st == Cancelled {
      recipient, title := Some(booking.providerId), "Booking Cancelled";
    }
    assert recipient == Recipient(st, booking) && title == NoticeTitle(st);
    if recipient.Some? && recipient.value != 0 {
      db.notifications := db.notifications + [Notification(recipient.value, "booking_" + StatusName(st), title, id)];
    }
  }

  /** PUT /api/bookings/:id/status, for any authenticated user. */
  method UpdateBookingStatus(db: Database, actor: nat, id: nat, status: Option<string>, response: Option<string>, now: int)
    returns (r: Result<()>)
    requires db.Valid()
    requires actor in db.users
    modifies db
    ensures db.Valid()
    ensures var s := UpdateStatusStep(old(db.State()), actor, id, status, response, now);
            db.State() == s.tables && r == s.result
  {
    ghost var before := db.State();
    if !Truthy(status) {
      return Fail(BadRequest);
    }
    var target := ParseStatus(status.value);
    if target.None? {
      return Fail(BadRequest);
    }
    var st := target.value;
    if id !in db.bookings {
      return Fail(NotFound);
    }
    var booking := db.bookings[id];
    if st == Accepted || st == Rejected {
      if booking.providerId != actor {
        return Fail(Forbidden);
      }
    } else if st == Cancelled {
      if booking.customerId != actor {
        return Fail(Forbidden);
      }
    } else if st == Completed {
      if booking.customerId != actor && booking.providerId != actor {
        return Fail(Forbidden);
      }
    }

    assert st == Target(status) && MayTarget(st, booking, actor);

    var updated := booking.(status := st);
    if Truthy(response) {
      updated := updated.(providerResponse := response);
    }
    if st == Completed {
      updated := updated.(completedAt := Some(now), payment := Paid);
    }
    assert updated == Retarget(booking, st, response, now);
    db.bookings := db.bookings[id := updated];

    ghost var written := db.State();
    NotifyStatusChange(db, id, st, booking);
    r := Ok(());
    assert db.State() == UpdateStatusStep(before, actor, id, status, response, now).tables by {
      assert written == before.(bookings := before.bookings[id := Retarget(booking, st, response, now)]);
    }
  }
}
