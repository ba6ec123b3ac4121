/** The rows of the marketplace database and the database itself.

    Every table is a map from its auto-increment id to a record. `Tables` is
    the value of the whole database at one moment; `Database` is the shared
    connection pool the controllers read and write, one field per table.
    Only the columns that some controller reads or writes are modelled. */
module Schema {
  import opened Common
  import opened Sorting

  datatype Role = Customer | Provider | Admin

  /** A row of `users`. Users are created by registration, which is not part
      of this model; no operation here deletes one. */
  datatype User = User(
    name: string,
    email: string,
    role: Role,
    phone: Option<string>,
    address: Option<string>,
    latitude: Option<real>,
    longitude: Option<real>,
    bio: Option<string>,
    portfolioUrl: Option<string>,
    isVerified: bool)

  /** A row of `categories`. */
  datatype Category = Category(name: string, description: Option<string>, iconUrl: Option<string>)

  /** A row of `services`. `createdAt` is the clock reading at insertion. */
  datatype Service = Service(
    providerId: nat,
    categoryId: nat,
    title: string,
    description: string,
    price: real,
    location: Option<string>,
    latitude: Option<real>,
    longitude: Option<real>,
    serviceType: string,
    durationEstimate: Option<string>,
    isActive: bool,
    createdAt: int)

  /** The five values the `status` column takes. */
  datatype BookingStatus = Pending | Accepted | Rejected | Completed | Cancelled

  /** `payment_status`: the controllers only ever write "paid"; before that
      the column holds its schema default, which no controller sets. */
  datatype PaymentStatus = PaymentDefault | Paid

  /** A row of `bookings`. `providerId` and `totalPrice` are copies of the
      service's columns at creation; `createdAt` stands for both
      `booking_date` (NOW()) and `created_at`. */
  datatype Booking = Booking(
    serviceId: nat,
    customerId: nat,
    providerId: nat,
    scheduledDate: string,
    totalPrice: real,
    customerNotes: Option<string>,
    status: BookingStatus,
    providerResponse: Option<string>,
    completedAt: Option<int>,
    payment: PaymentStatus,
    createdAt: int)

  /** A row of `reviews`; the three sub-ratings are NULL when not given. */
  datatype Review = Review(
    bookingId: nat,
    serviceId: nat,
    customerId: nat,
    providerId: nat,
    rating: real,
    comment: Option<string>,
    communication: Option<real>,
    quality: Option<real>,
    timeliness: Option<real>,
    providerResponse: Option<string>,
    createdAt: int)

  /** A row of `notifications` (the message text is not modelled). */
  datatype Notification = Notification(userId: nat, kind: string, title: string, relatedId: nat)

  /** True when every id of `m` is an auto-increment value already handed out. */
  ghost predicate IdsBelow<V>(m: map<nat, V>, next: nat) {
    forall k :: k in m ==> 0 < k < next
  }

  /** The entries of `m` with an id below `n`, in increasing id order: the
      rows a full-table scan returns. */
  function RowsBelow<V(!new)>(m: map<nat, V>, n: nat): (r: seq<(nat, V)>)
    ensures forall row :: row in r <==> row.0 < n && row.0 in m && m[row.0] == row.1
    ensures forall i, j :: 0 <= i < j < |r| ==> r[i].0 < r[j].0
  {
    if n == 0 then []
    else RowsBelow(m, n - 1) + (if n - 1 in m then [(n - 1, m[n - 1])] else [])
  }

  /** Rows with increasing ids have no duplicates. */
  lemma RowsDistinct<V>(r: seq<(nat, V)>)
    requires forall i, j :: 0 <= i < j < |r| ==> r[i].0 < r[j].0
    ensures Distinct(r)
  {
  }

  /** The review copies its booking's service, customer and provider. */
  predicate ReviewOf(r: Review, b: Booking) {
    r.serviceId == b.serviceId && r.customerId == b.customerId && r.providerId == b.providerId
  }

  /** The whole database at one moment, with the next auto-increment value of each table. */
  datatype Tables = Tables(
    users: map<nat, User>,
    categories: map<nat, Category>,
    services: map<nat, Service>,
    bookings: map<nat, Booking>,
    reviews: map<nat, Review>,
    notifications: seq<Notification>,
    nextUser: nat,
    nextCategory: nat,
    nextService: nat,
    nextBooking: nat,
    nextReview: nat)
  {
    /** The invariant every operation keeps:
        ids are auto-increment values, which start at 1, every service, booking and
        review names existing users, every review names an existing booking
        whose parties it copied with a rating from 1 to 5, and no booking
        has two reviews. */
    ghost predicate Wf() {
      && 0 < nextUser && 0 < nextCategory && 0 < nextService && 0 < nextBooking && 0 < nextReview
      && IdsBelow(users, nextUser)
      && IdsBelow(categories, nextCategory)
      && IdsBelow(services, nextService)
      && IdsBelow(bookings, nextBooking)
      && IdsBelow(reviews, nextReview)
      && (forall k :: k in services ==> services[k].providerId in users)
      && (forall k :: k in bookings ==> bookings[k].customerId in users && bookings[k].providerId in users)
      && (forall k :: k in reviews ==> reviews[k].bookingId in bookings && ReviewOf(reviews[k], bookings[reviews[k].bookingId]))
      && (forall k :: k in reviews ==> 1.0 <= reviews[k].rating <= 5.0)
      && OneReviewPerBooking()
    }

    /** At most one review refers to any booking. */
    ghost predicate OneReviewPerBooking() {
      forall k1, k2 :: k1 in reviews && k2 in reviews && reviews[k1].bookingId == reviews[k2].bookingId ==> k1 == k2
    }

    /** `SELECT review_id FROM reviews WHERE booking_id = ?` is not empty. */
    predicate HasReview(bookingId: nat) {
      exists k :: k in reviews && reviews[k].bookingId == bookingId
    }

    function UserRows(): seq<(nat, User)> { RowsBelow(users, nextUser) }
    function CategoryRows(): seq<(nat, Category)> { RowsBelow(categories, nextCategory) }
    function ServiceRows(): seq<(nat, Service)> { RowsBelow(services, nextService) }
    function BookingRows(): seq<(nat, Booking)> { RowsBelow(bookings, nextBooking) }
    function ReviewRows(): seq<(nat, Review)> { RowsBelow(reviews, nextReview) }
  }

  /** On a well-formed database a table scan returns every row of the table. */
  lemma ScansAreComplete(t: Tables)
    requires t.Wf()
    ensures forall row :: row in t.UserRows() <==> row.0 in t.users && t.users[row.0] == row.1
    ensures forall row :: row in t.CategoryRows() <==> row.0 in t.categories && t.categories[row.0] == row.1
    ensures forall row :: row in t.ServiceRows() <==> row.0 in t.services && t.services[row.0] == row.1
    ensures forall row :: row in t.BookingRows() <==> row.0 in t.bookings && t.bookings[row.0] == row.1
    ensures forall row :: row in t.ReviewRows() <==> row.0 in t.reviews && t.reviews[row.0] == row.1
  {
  }

  /** What an operation on the database leaves behind: the new tables and the answer. */
  datatype Step<T> = Step(tables: Tables, result: Result<T>)

  /** The shared connection pool: one mutable field per table. */
  class Database {
    var users: map<nat, User>
    var categories: map<nat, Category>
    var services: map<nat, Service>
    var bookings: map<nat, Booking>
    var reviews: map<nat, Review>
    var notifications: seq<Notification>
    var nextUser: nat
    var nextCategory: nat
    var nextService: nat
    var nextBooking: nat
    var nextReview: nat

    /** The database's current contents as one value. */
    function State(): Tables
      reads this
    {
      Tables(users, categories, services, bookings, reviews, notifications,
             nextUser, nextCategory, nextService, nextBooking, nextReview)
    }

    ghost predicate Valid()
      reads this
    {
      State().Wf()
    }

    constructor (t: Tables)
      requires t.Wf()
      ensures Valid() && State() == t
    {
      users, categories, services, bookings, reviews := t.users, t.categories, t.services, t.bookings, t.reviews;
      notifications := t.notifications;
      nextUser, nextCategory, nextService, nextBooking, nextReview := t.nextUser, t.nextCategory, t.nextService, t.nextBooking, t.nextReview;
    }
  }
}
