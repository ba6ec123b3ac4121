# Marketplace backend core in Dafny

A model of the request handlers of a service marketplace backend (an
Express/MySQL application). Customers book services that providers offer,
providers accept or reject bookings, either party completes them, and
customers review completed bookings. The model covers:

- the booking lifecycle: creation against an active service, status
  updates with their role gate, and the notification each update sends;
- the review eligibility gate, the provider's response, deletion, and the
  two paginated review listings;
- service and provider discovery: filtering, optional proximity ranking
  (known distances ascending, unknown distances last), then pagination;
- ownership-checked create, update and delete for services, user
  profiles and categories. Updates are `COALESCE` partial updates: a
  supplied field replaces the old value and an absent one keeps it;
- the one-way upgrade of a user to the provider role;
- the authentication middleware (Bearer header, token, stored user) and
  the `authorize(...roles)` gate.

The database is the value `Schema.Tables`: one map per table, keyed by
the auto-increment id, plus the next id of each table. `Tables.Wf` is the
invariant that every writing operation keeps. `Schema.Database` is the
shared connection pool, a class with one mutable field per table.

Each writing handler appears twice:

- a pure `...Step` function that returns the new tables and the answer.
  Its contract gives the error precedence as if-and-only-if clauses, says
  that a failed request changes nothing, and states the exact new state;
- a method on `Database` that performs the same reads and writes one
  statement at a time. Its postcondition equates the resulting state and
  answer with the step.

Read-only handlers are functions over `Tables`. The two discovery handlers
are methods: they run the distance-attaching loop (`Proximity.AttachDistances`),
sort, and slice. The route files' role gates (`authorize("customer")` and
so on) become preconditions of the methods. The haversine distance, the
clock and `jwt.verify` are parameters.

Files: `common.dfy`, `sorting.dfy`, `schema.dfy`, `proximity.dfy`,
`auth.dfy`, `bookings.dfy`, `reviews.dfy`, `services.dfy`, `users.dfy`,
`categories.dfy`, `scenarios.dfy` (properties spanning several handlers).

## Behaviour worth noting

The handlers behave as follows, and the model states each point:

- Booking statuses have no terminal states and no transition table. Any
  status follows any other, provided the actor passes the gate of the
  target status (`BookingController.EveryStatusIsReachable`).
- Moving to `pending` needs no particular actor and sends no notification.
- Repeating an update succeeds again and notifies again
  (`BookingController.RepeatedUpdateSucceeds`).
- A new booking's payment status is left at the column default. The
  handlers only ever write `paid`.
- The distance comparator answers "after" for two unknown distances in
  both orders (`Proximity.CompareInconsistentOnNulls`). The relative order
  of rows without a distance is therefore unspecified, and the model says
  nothing about it.
- Upgrading turns an admin into a provider, so the admin role is lost
  (`UserController.UpgradeOnce`).
- Ratings are checked only to lie between 1 and 5; they need not be
  integers.
- A duplicate review and a review of a booking that is not completed are
  answered with 400.
- `updateCategory` performs no duplicate-name check, and it stores an
  empty name when one is sent (`CategoryController.RenameCanDuplicate`,
  `CategoryController.MergeCategoryLaws`).
- `createService` does not check that the category exists. Such a service
  never appears in discovery because of the inner join.
- `updateUser` on a missing row still answers success.
- The `total` of `getProviderReviews` counts reviews without the joins of
  the listing, so it can exceed the number of rows the listing can show
  (`ReviewController.ProviderReviews`).

## Model

| member | source | states |
|---|---|---|
| Common.OrNull | backend/controllers/serviceController.js:243-244 | `x \|\| null`: the result is present exactly when the value is truthy, and then it is the value |
| Common.Page | backend/controllers/serviceController.js:112-115 | the page has `min(limit, length - offset)` entries (none past the end), and its i-th entry is entry `offset + i` of the list |
| Common.PagesTile | backend/controllers/serviceController.js:112-124 | a page followed by the rest is the list from `offset` on: with `hasMore` false the page ends the list; with it true the remainder starts right after the page |
| Sorting.ListingSpec | backend/controllers/bookingController.js:154-166 | a filtered, ordered listing holds every passing row and nothing else, in order, none twice |
| Sorting.NoDuplicatesIsDistinct | backend/controllers/bookingController.js:154-166 | a listing in which no row occurs twice has no two positions with the same row |
| Sorting.DistinctCount | backend/controllers/userController.js:183 | a list without repeats is as long as the set of its rows, so `length` counts distinct rows |
| Sorting.PageKeepsNoDuplicates | backend/controllers/userController.js:175-177 | `slice` of a list without repeats has no repeats |
| Sorting.PrefixComesFirst | backend/controllers/serviceController.js:175-185 | in an ordered list, the first `n` rows come before every row left out of them |
| Sorting.PageKeepsOrder | backend/controllers/reviewController.js:141-142 | `LIMIT ... OFFSET` of an ordered listing is still ordered |
| Sorting.SortBySorted | backend/controllers/bookingController.js:164 | sorting by a total preorder yields an ordered sequence with the same elements |
| Sorting.LexLeTotal | backend/controllers/categoryController.js:17 | `ORDER BY name` compares every pair of names |
| Sorting.LexLeTransitive | backend/controllers/categoryController.js:17 | the name order is transitive |
| Sorting.LexLeAntisymmetric | backend/controllers/categoryController.js:17 | two names that sort before each other are equal |
| Proximity.DistanceFrom | backend/controllers/serviceController.js:91-101 | a row gets a distance exactly when both its coordinates are truthy, and then it is the haversine distance from the observer |
| Proximity.WithDistances | backend/controllers/serviceController.js:91-102 | every row keeps its id and record, in the same order, and carries the distance that `DistanceFrom` assigns |
| Proximity.WithDistancesMembers | backend/controllers/serviceController.js:91-102 | every row with a distance is an input row carrying the distance of its own stored coordinates |
| Proximity.RankedMembers | backend/controllers/serviceController.js:91-109 | after ranking, every row is still an input row carrying the distance of its own stored coordinates |
| Proximity.AttachDistances | backend/controllers/serviceController.js:91-102 | the `forEach` loop gives every row the distance that `WithDistances` assigns |
| Proximity.Unranked | backend/controllers/serviceController.js:87-110 | without observer coordinates the rows keep their order and carry no distance |
| Proximity.CompareAgrees | backend/controllers/serviceController.js:105-109 | the comparator is non-positive exactly when the first row is to be placed before the second |
| Proximity.CompareInconsistentOnNulls | backend/controllers/serviceController.js:106-107 | for two rows without distance the comparator says each goes after the other |
| Proximity.NearerFirstIsTotalPreorder | backend/controllers/serviceController.js:105-109 | nearest-first with unknowns last compares every pair and is transitive |
| Proximity.RankSpec | backend/controllers/serviceController.js:105-109 | ranking permutes the rows, puts every known distance before every unknown one, and orders known distances ascending |
| Proximity.PageOfRanked | backend/controllers/serviceController.js:112-115 | a page of a ranked list is ranked |
| AuthMiddleware.Authorize | backend/middleware/authMiddleware.js:71-89 | `next()` exactly when there is a user whose role is listed; 401 exactly without a user; 403 exactly for an unlisted role |
| AuthMiddleware.BearerToken | backend/middleware/authMiddleware.js:12-19 | a token exactly when the header starts with "Bearer "; it is the second space-separated field, contains no space, and follows the prefix directly |
| AuthMiddleware.Authentication | backend/middleware/authMiddleware.js:7-66 | success exactly when the header has a token, the token verifies, and its user is stored; every failure is 401; the attached user is built from the stored row |
| AuthMiddleware.RoleComesFromStore | backend/middleware/authMiddleware.js:25-43 | the authenticated role is the stored role, not the token's claim |
| AuthMiddleware.AuthenticatedGate | backend/middleware/authMiddleware.js:80-87 | after `authenticate`, `authorize(roles)` passes exactly when the stored role is listed |
| AuthMiddleware.Authenticate | backend/middleware/authMiddleware.js:7-66 | calls `next()` exactly when authentication succeeds, and then sets `req.user`; otherwise 401 with `req.user` untouched |
| AuthMiddleware.OptionalAuth | backend/middleware/authMiddleware.js:95-125 | always calls `next()`; sets `req.user` exactly when authentication would succeed |
| BookingController.CreateBookingStep | backend/controllers/bookingController.js:8-58 | 400 exactly without service id or date; 404 exactly for an absent or inactive service; failures write nothing; otherwise one pending booking under the next, unused id, with the actor as customer and the service's provider and price copied into it, plus one `new_booking` notification to that provider; `Wf` is kept |
| BookingController.ParseStatus | backend/controllers/bookingController.js:243-255 | a status is recognised exactly when it is one of the five valid strings, and it then names that status |
| BookingController.StatusNameRoundTrip | backend/controllers/bookingController.js:243-249 | every status has a valid name, and parsing the name gives the status back |
| BookingController.UpdateStatusStep | backend/controllers/bookingController.js:230-356 | 400 exactly for a missing or unknown status; then 404 exactly for an absent booking; then 403 exactly when the actor fails the target's gate; failures write nothing; otherwise only that booking is retargeted and the target's notifications are appended; `Wf` is kept |
| BookingController.EveryStatusIsReachable | backend/controllers/bookingController.js:273-318 | from any current status, an actor the gate admits moves the booking to any of the five statuses |
| BookingController.CompletionStamps | backend/controllers/bookingController.js:311-313 | a completed target stamps the completion time and `paid`; any other target leaves both as they were |
| BookingController.NotificationTable | backend/controllers/bookingController.js:320-356 | pending adds no notification; accepted, rejected and completed add one to the customer; cancelled adds one to the provider; each has the fixed type and title and names the booking |
| BookingController.RepeatedUpdateSucceeds | backend/controllers/bookingController.js:302-356 | accepting twice succeeds twice and notifies the customer twice |
| BookingController.UpdateKeepsSnapshot | backend/controllers/bookingController.js:302-318 | a status update keeps every booking's service, parties, price and creation time |
| BookingController.GetBookingById | backend/controllers/bookingController.js:81-127 | 404 exactly when the joined row is missing; 403 exactly when the actor is neither party; otherwise the stored booking |
| BookingController.NewerFirstIsTotalPreorder | backend/controllers/bookingController.js:164 | `ORDER BY created_at DESC` compares every pair and is transitive |
| BookingController.Listing | backend/controllers/bookingController.js:154-166 | newest first, no duplicates, and on a well-formed database exactly the stored bookings that pass the filter |
| BookingController.GetCustomerBookings | backend/controllers/bookingController.js:142-171 | 403 exactly when the path id is not the actor; otherwise each joined booking of that customer once, newest first |
| BookingController.GetProviderBookings | backend/controllers/bookingController.js:186-215 | 403 exactly when the path id is not the actor; otherwise each joined booking of that provider once, newest first |
| BookingController.CreateBooking | backend/controllers/bookingController.js:8-66 | a customer's request leaves the database and the answer that `CreateBookingStep` describes and keeps `Wf` |
| BookingController.NotifyStatusChange | backend/controllers/bookingController.js:320-356 | the recipient and title chain appends exactly the target's notifications and changes nothing else |
| BookingController.UpdateBookingStatus | backend/controllers/bookingController.js:230-361 | leaves the database and the answer that `UpdateStatusStep` describes and keeps `Wf` |
| ReviewController.CreateReviewStep | backend/controllers/reviewController.js:8-105 | 400 for a malformed body; 404 exactly for an absent booking; 403 exactly for someone other than its customer; 400 when the booking is not completed or already reviewed; success exactly when the booking is eligible and the actor is its customer; failures write nothing; otherwise one review copying the booking's parties and one `new_review` notification to the provider; `Wf` is kept |
| ReviewController.SecondReviewRefused | backend/controllers/reviewController.js:64-75 | after a successful review, every further review of the booking fails; for the same customer it fails with 400 |
| ReviewController.OnlyCompletedBookingsAreReviewed | backend/controllers/reviewController.js:56-62 | the customer's review of a booking in any other status fails with 400 |
| ReviewController.RespondStep | backend/controllers/reviewController.js:250-292 | 400 exactly for an empty response; then 404 for an absent review; then 403 unless the actor is its provider; it succeeds exactly when the response is non-empty and the actor is the provider of an existing review, and then only the response column changes |
| ReviewController.RespondIdempotent | backend/controllers/reviewController.js:283-287 | repeating a response leaves the state as it was; a later response replaces an earlier one |
| ReviewController.DeleteReviewStep | backend/controllers/reviewController.js:307-338 | 404 exactly for an absent review; 403 exactly for someone other than its author; it succeeds exactly when the actor wrote an existing review, and then just that review is gone; `Wf` is kept |
| ReviewController.DeleteReopensReview | backend/controllers/reviewController.js:332-333 | after the review of a completed booking is deleted, the booking is eligible for review again |
| ReviewController.NewerFirstIsTotalPreorder | backend/controllers/reviewController.js:141 | `ORDER BY r.created_at DESC` compares every pair and is transitive |
| ReviewController.Listing | backend/controllers/reviewController.js:133-144 | newest first, no duplicates, and on a well-formed database exactly the stored reviews that pass the filter |
| ReviewController.ServiceReviews | backend/controllers/reviewController.js:128-172 | the page at `offset` (default 0) of at most `limit` (default 10) of the service's reviews, newest first; `total` counts all of them, and on a well-formed database equals the unpaged listing's length |
| ReviewController.ServiceTotalMatchesListing | backend/controllers/reviewController.js:133-150 | on a well-formed database the customer join drops no review, so the count equals the listing's length |
| ReviewController.ProviderReviews | backend/controllers/reviewController.js:188-234 | the page of the provider's joined reviews, newest first, at most `limit`; `total` counts the provider's reviews without the joins and is at least the listing's length |
| ReviewController.CreateReview | backend/controllers/reviewController.js:8-121 | a customer's request leaves the database and the answer that `CreateReviewStep` describes and keeps `Wf` |
| ReviewController.RespondToReview | backend/controllers/reviewController.js:250-300 | a provider's request leaves the database and the answer that `RespondStep` describes |
| ReviewController.DeleteReview | backend/controllers/reviewController.js:307-346 | a customer's request leaves the database and the answer that `DeleteReviewStep` describes |
| ServiceController.Candidates | backend/controllers/serviceController.js:40-84 | every row is a stored active service, joined, passing every supplied filter; on a well-formed database every such service is a row; no row twice |
| ServiceController.Ordered | backend/controllers/serviceController.js:86-110 | with observer coordinates, the candidates with distances, permuted and ranked; otherwise the candidates in query order without distance |
| ServiceController.OrderedRows | backend/controllers/serviceController.js:86-110 | every ordered row is a stored matching service, and has its distance from the observer exactly when the observer is located |
| ServiceController.ServicesFor | backend/controllers/serviceController.js:27-126 | the response holds at most `limit` matching services, ranked when located; `total` counts all candidates; `hasMore` holds exactly when `offset + limit < total` |
| ServiceController.ZeroCoordinatesRankLast | backend/controllers/serviceController.js:92-107 | a service stored at latitude 0 ranks after every service with truthy coordinates |
| ServiceController.GetAllServices | backend/controllers/serviceController.js:27-126 | the handler's loop, sort and slice give the response `ServicesFor` describes |
| ServiceController.GetServiceById | backend/controllers/serviceController.js:141-194 | 404 exactly when the joined row is missing; otherwise the stored service, active or not, with the first 5 rows of that service's newest-first review listing (`LIMIT 5`); on a well-formed database they are stored reviews of that service and there are `min(5, count)` of them |
| ServiceController.RecentReviewsAreNewest | backend/controllers/serviceController.js:175-185 | on a well-formed database no review of the service left off its page is newer than a review shown on it |
| ServiceController.InactiveServiceIsShown | backend/controllers/serviceController.js:159-172 | the service page shows an inactive service |
| ServiceController.NewerFirstIsTotalPreorder | backend/controllers/serviceController.js:414 | `ORDER BY s.created_at DESC` compares every pair and is transitive |
| ServiceController.GetServicesByProvider | backend/controllers/serviceController.js:399-421 | each active service of the provider whose category exists, once, newest first, and on a well-formed database all of them |
| ServiceController.CreateServiceStep | backend/controllers/serviceController.js:209-255 | 400 exactly unless category, title, description and price are truthy, writing nothing; otherwise one active service under the next id, owned by the actor, of type "fixed" unless another is sent, with a latitude stored exactly when a truthy one is sent; `Wf` is kept |
| ServiceController.MergeLaws | backend/controllers/serviceController.js:308-334 | an empty body changes nothing; a repeated body changes nothing more; owner and creation time are kept; supplied fields replace the old values |
| ServiceController.UpdateServiceStep | backend/controllers/serviceController.js:271-339 | 404 exactly for an absent service; 403 exactly for someone other than the owner; it succeeds exactly when the actor owns an existing service, and then only that row is merged with the body |
| ServiceController.DeactivatedServiceIsHidden | backend/controllers/serviceController.js:308-319 | once updated with `is_active` false, a service appears on no discovery page and not in its provider's list, yet its own page is still shown |
| ServiceController.DeleteServiceStep | backend/controllers/serviceController.js:354-384 | 404 exactly for an absent service; 403 exactly for someone other than the owner; it succeeds exactly when the actor owns an existing service, and then just that row is gone |
| ServiceController.CreateService | backend/controllers/serviceController.js:209-256 | a provider's request leaves the database and the answer that `CreateServiceStep` describes and keeps `Wf` |
| ServiceController.UpdateService | backend/controllers/serviceController.js:271-339 | a provider's request leaves the database and the answer that `UpdateServiceStep` describes |
| ServiceController.DeleteService | backend/controllers/serviceController.js:354-384 | a provider's request leaves the database and the answer that `DeleteServiceStep` describes |
| UserController.SumRatingsBounds | backend/controllers/userController.js:39-42 | n ratings from 1 to 5 sum to between n and 5n |
| UserController.MeanBounds | backend/controllers/userController.js:39-52 | such a sum divided by n is between 1 and 5 |
| UserController.AverageRating | backend/controllers/userController.js:52 | the mean rating is 0 without reviews and between 1 and 5 otherwise |
| UserController.StatsRatingRange | backend/controllers/userController.js:30-55 | on a well-formed database the mean is 0 exactly when there are no reviews, between 1 and 5 otherwise, and the review count equals the provider-review listing's total |
| UserController.GetUserById | backend/controllers/userController.js:8-61 | 404 exactly for an unknown id; otherwise the stored user, with statistics exactly for a provider |
| UserController.MergeProfileLaws | backend/controllers/userController.js:91-102 | an empty body changes nothing; a repeated body changes nothing more; email, role and verification are kept; supplied fields are stored |
| UserController.UpdateUserStep | backend/controllers/userController.js:76-107 | 403 exactly when the path id is not the actor; otherwise the actor's row, if any, is merged; the set of users never changes |
| UserController.UpgradeStep | backend/controllers/userController.js:202-235 | 403 exactly when the path id is not the actor; 400 exactly for a provider; otherwise only the role becomes provider |
| UserController.UpgradeOnce | backend/controllers/userController.js:213-230 | the upgrade succeeds once, a second one fails with 400, and an admin who upgrades is no longer an admin |
| UserController.VerifiedThenRatedIsTotalPreorder | backend/controllers/userController.js:140 | `ORDER BY is_verified DESC, avg_rating DESC` compares every pair and is transitive |
| UserController.Cards | backend/controllers/userController.js:126-141 | every provider row, in order, with its statistics attached |
| UserController.CardsAreProviders | backend/controllers/userController.js:134-141 | every card is a stored provider with its statistics |
| UserController.CardsCoverProviders | backend/controllers/userController.js:134-141 | on a well-formed database every stored provider has its card |
| UserController.CardsDistinct | backend/controllers/userController.js:126-139 | the scan gives no two equal provider cards, since it has one row per user id |
| UserController.Providers | backend/controllers/userController.js:126-141 | verified first, then by mean rating; exactly the stored providers with their statistics, each once (`GROUP BY u.user_id`) |
| UserController.ProviderCount | backend/controllers/userController.js:126-141 | on a well-formed database the query returns as many rows as there are stored providers |
| UserController.OrderedProviders | backend/controllers/userController.js:143-172 | with observer coordinates, the cards with distances, permuted and ranked; otherwise the cards in query order without distance |
| UserController.LocatedProviderRows | backend/controllers/userController.js:143-165 | with observer coordinates, every row is a provider card with its distance from the observer |
| UserController.UnlocatedProviderRows | backend/controllers/userController.js:140-144 | without observer coordinates, every row is a provider card without distance, still verified first and then by rating |
| UserController.OrderedProviderRows | backend/controllers/userController.js:143-172 | every ordered row is a provider card, with its distance exactly when the observer is located, in query order otherwise |
| UserController.OrderedProvidersOnce | backend/controllers/userController.js:143-172 | ranked or not, the ordered rows hold each provider once |
| UserController.ProvidersFor | backend/controllers/userController.js:122-188 | the response holds at most `limit` provider cards, none twice, ranked when located and in query order otherwise; on a well-formed database `total` is the number of stored providers |
| UserController.GetAllProviders | backend/controllers/userController.js:122-188 | the handler's loop, sort and slice give the response `ProvidersFor` describes |
| UserController.UpdateUser | backend/controllers/userController.js:76-115 | leaves the database and the answer that `UpdateUserStep` describes and keeps `Wf` |
| UserController.UpgradeToProvider | backend/controllers/userController.js:202-243 | leaves the database and the answer that `UpgradeStep` describes and keeps `Wf` |
| CategoryController.Named | backend/controllers/categoryController.js:84-87 | every row found is a stored category with that name |
| CategoryController.NamedFindsTaken | backend/controllers/categoryController.js:84-94 | on a well-formed database the name query finds a row exactly when some category has the name |
| CategoryController.CreateCategoryStep | backend/controllers/categoryController.js:72-107 | 400 exactly without a name or when the name query finds a row, writing nothing; otherwise exactly one new category under the next id, with the given non-empty name; `Wf` is kept |
| CategoryController.CreateRefusesTakenName | backend/controllers/categoryController.js:76-94 | on a well-formed database, creation fails exactly when the name is missing or empty or some category already has it |
| CategoryController.CreateKeepsNamesUnique | backend/controllers/categoryController.js:84-99 | creation keeps category names unique |
| CategoryController.SecondCreateRefused | backend/controllers/categoryController.js:89-94 | creating the same name again fails with 400 |
| CategoryController.MergeCategoryLaws | backend/controllers/categoryController.js:140-147 | an empty body changes nothing; a repeated body changes nothing more; a supplied field, an empty name included, replaces the old value; an absent one keeps it |
| CategoryController.UpdateCategoryStep | backend/controllers/categoryController.js:122-152 | 404 exactly for an absent category, writing nothing; otherwise only that row is merged |
| CategoryController.RenameCanDuplicate | backend/controllers/categoryController.js:140-147 | renaming a category to another's name succeeds and leaves two categories with one name |
| CategoryController.InCategory | backend/controllers/categoryController.js:172-175 | every counted row is a stored service of the category, active or not |
| CategoryController.InCategoryFindsUse | backend/controllers/categoryController.js:172-182 | on a well-formed database the count is positive exactly when some service names the category |
| CategoryController.DeleteCategoryStep | backend/controllers/categoryController.js:167-199 | 400 exactly while a service names the category, checked before existence; then 404 exactly for an absent category; it succeeds exactly when the category exists and no service names it; failures write nothing; on success exactly that category is gone, no service referred to it, and `Wf` and intact category references are kept |
| CategoryController.InactiveServiceBlocksDelete | backend/controllers/categoryController.js:172-182 | an inactive service of the category also blocks its deletion |
| CategoryController.ActiveCountAtMostInUse | backend/controllers/categoryController.js:15 | the listing's count of active services never exceeds the count the delete guard reads |
| CategoryController.ByNameIsTotalPreorder | backend/controllers/categoryController.js:17 | `ORDER BY c.name ASC` compares every pair and is transitive |
| CategoryController.Entries | backend/controllers/categoryController.js:10-18 | every category row, in order, with its count of active services |
| CategoryController.EntriesAreCategories | backend/controllers/categoryController.js:10-18 | every entry is a stored category with its count, and on a well-formed database every category has its entry |
| CategoryController.GetAllCategories | backend/controllers/categoryController.js:8-23 | every category once, in name order, each with its number of active services |
| CategoryController.GetCategoryById | backend/controllers/categoryController.js:38-57 | 404 exactly for an absent id; otherwise the stored category |
| CategoryController.CreatedCategoryIsFound | backend/controllers/categoryController.js:96-106 | a created category is found under the returned id, as it was sent |
| CategoryController.DeletedCategoryIsGone | backend/controllers/categoryController.js:184-194 | a deleted category is no longer found, and every other lookup gives what it gave before |
| CategoryController.CreateCategory | backend/controllers/categoryController.js:72-115 | an admin's request leaves the database and the answer that `CreateCategoryStep` describes and keeps `Wf` |
| CategoryController.UpdateCategory | backend/controllers/categoryController.js:122-160 | an admin's request leaves the database and the answer that `UpdateCategoryStep` describes |
| CategoryController.DeleteCategory | backend/controllers/categoryController.js:167-207 | an admin's request leaves the database and the answer that `DeleteCategoryStep` describes |
| Scenarios.PriceSnapshotSurvivesServiceUpdate | backend/controllers/bookingController.js:35-47 | a booking keeps the price it was made at when the service's price changes later |
| Scenarios.CompletedBookingIsReviewable | backend/controllers/reviewController.js:19-105 | the customer of a completed, unreviewed booking can review it, and the review goes to the booking's provider |
| Scenarios.BookAcceptCompleteReview | backend/controllers/bookingController.js:273-318 | booking an active service, acceptance by its provider, and completion by the customer all succeed; the booking is paid; and the customer's review is accepted for that provider |
| Scenarios.DeleteThenReview | backend/controllers/reviewController.js:332-333 | after deleting a review, its author can review the same booking again |
| Scenarios.UpgradeOpensProviderRoutes | backend/middleware/authMiddleware.js:25-43 | after an upgrade, a customer's old token passes `authorize("provider")`, which refused it before |
| Scenarios.DeactivationDoesNotFreeCategory | backend/controllers/categoryController.js:172-182 | deactivating a service does not let its category be deleted |

## Left out

- The haversine formula and its Earth radius (serviceController.js:7-19 and the inline copy in userController.js:150-160) are not modelled: the distance is a function parameter. Floating-point arithmetic is modelled as exact reals.
- `parseInt`/`parseFloat` of query strings and path ids are not modelled: values arrive already parsed. NaN, negative and non-numeric limits and offsets are out of scope.
- JSON values of the wrong type, such as a rating sent as the string "5", are not modelled.
- The SQL engine is simplified. `=` and `ORDER BY name` compare characters exactly, without MySQL's case-insensitive collation. `%` and `_` inside a search term are not wildcards.
- Rows that tie on the `ORDER BY` key are in an unspecified order, and nothing is stated about it. Queries with `GROUP BY` and no `ORDER BY` are modelled in id order.
- Joined display columns are not modelled: provider, customer and category names, phones, and images.
- The per-service `avg_rating` and `review_count` of discovery, the service page and the provider's service list are not modelled.
- The `averages` of the two review listings (reviewController.js:152-162 and 214-224) are not modelled.
- Message texts are not modelled: notification messages and response messages. 201 and 200 are both success.
- Database failures and the 500 answers of the `catch` blocks are out of scope. So are JWT errors other than an invalid or expired token.
- Concurrency is out of scope: the check-then-insert races, with requests modelled one at a time.
- `jwt.verify` is an oracle parameter. Token signing, registration, login and password change in authController.js are not part of this model. Neither is server.js.
- The route files appear only as the role preconditions of the methods.
- `ON DELETE CASCADE` is not modelled. Deleting a service leaves its bookings and reviews in place, so an operation's `Wf` does not require a review's service to exist.
- Column defaults the handlers do not write: a new service is assumed active, and the initial payment status is an opaque default.
- `Proximity.RankSpec`: states nothing about the relative order of rows without a distance, because the comparator is inconsistent on two unknown distances.
- `Proximity.Rank`: the call to `Array.prototype.sort` is modelled by an insertion sort by `NearerFirst`, which agrees with the comparator wherever one side has a distance (`Proximity.CompareAgrees`). It is a function rather than an in-place sort of the fetched array.
- `ReviewController.ProviderReviews`: states `total` only as at least the listing's length, because the count query does not join users and services as the listing does.
