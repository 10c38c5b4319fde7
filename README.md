# Cinema booking backend: seat holds, payments, showtimes, rate limiting, roles, movies and users

This project is a Dafny model of the core of a NestJS cinema-ticket backend that
uses Prisma over PostgreSQL, a Bull queue and Redis.

**Seat holds.**
- `reserveSeats` marks seats of a room as `pending`, decrements the showtime's
  `available_seats` counter, and queues a `release-seats` job delayed by ten minutes.
- `confirmPayment` removes matching delayed jobs and marks the seats `booked`.
- The queued job sets the seats back to `available` with no status check, and gives
  the counter back.
- `getSeatsForShowtime` lists a room's seats grouped by row. The rows come in the
  order `Object.entries` gives them: row names that are array indices first, by value.
  A row named after an `Object.prototype` member (such as "constructor") makes the
  grouping throw, and the model answers that error.

**Payments.**
- `createPayment` settles a booking's total, builds the ZaloPay order and its MAC
  input string, and stores a pending payment.
- The success and failure handlers update the payment, the booking and the seats.
- The payment controller checks booking ownership, dispatches the gateway callback,
  and answers with the gateway's return codes.

**The rest.**
- Showtime creation parses "HH:mm" times and tests for schedule conflicts.
- A Redis fixed-window counter, and the guard around it, limit requests per IP and route.
- A roles guard reads the principal's `role_id`.
- The movie and user services do table operations with validation, soft delete and
  email uniqueness.

How state is modelled:
- **Store.** The database is the class `Store.Database`, which holds one `Tables`
  value. Each service method takes the database and leaves it equal to a step function
  of the old tables. That step function is what the lemmas are about.
- **Bull queue.** The delayed jobs are `Store.JobQueue`, an ordered sequence.
- **Redis.** The key-value store is `RateLimit.KeyValueStore`: string values and
  per-key TTLs.
- **JavaScript semantics.** These are written out where the code depends on them:
  - `parseInt` (NaN is `None`) and `Number#toString` are in module `Text`;
  - strict equality and truthiness on untyped values are in module `Js`.
- **Foreign pieces.** These are function-typed parameters:
  - the HMAC, the JSON encoders, the bcrypt hash and the validity of `new Date(text)`;
  - the clock readings and the gateway's answer.

## Model

| member | source | states |
|---|---|---|
| Ordering.OrderBy | src/queue/seat-reservation.service.ts:130-136 | a query with `orderBy` lists every row of the set exactly once, in the order of the given total preorder |
| Text.ParseIntOfIntToString | src/redis/rate-limit.service.ts:16-21 | `parseInt` reads back exactly the integer whose decimal text the counter stored |
| Text.ParseIntOfNonDigit | src/redis/rate-limit.service.ts:16 | `parseInt` of a text starting with neither a space, a sign nor a digit is NaN |
| Text.SplitJoin | src/showtime/showtime.service.ts:31-32 | splitting a joined list at a separator no part contains gives the list back |
| SeatReservation.ReserveSeats | src/queue/seat-reservation.service.ts:13-72 | the new tables, the new job queue and the answer are those of the reservation step on the old state |
| SeatReservation.ReserveRejectsTakenSeat | src/queue/seat-reservation.service.ts:16-27 | an existing requested seat that is not available makes the call fail with BadRequest and change neither tables nor queue |
| SeatReservation.ReserveRejectsExactlyTakenSeats | src/queue/seat-reservation.service.ts:16-27 | the call fails with the seats-taken BadRequest iff some existing requested seat is not available; unknown ids are ignored |
| SeatReservation.ReserveSucceeds | src/queue/seat-reservation.service.ts:29-68 | on success every existing requested seat becomes pending and no other seat changes; the counter drops by exactly the list length; one release job with delay 600000 is appended; the reply echoes the ids; nothing else changes |
| SeatReservation.HoldBlocksEveryShowtime | src/queue/seat-reservation.service.ts:16-39 | a seat held for one showtime is refused to a reservation for any showtime |
| SeatReservation.MissingShowtimeStrandsSeats | src/queue/seat-reservation.service.ts:29-51 | with a missing showtime the seats are already pending when the counter update fails, and no job is queued |
| SeatReservation.WithoutMatchingKeeps | src/queue/seat-reservation.service.ts:77-86 | a job survives the removal iff it was queued and does not match the showtime and the seat list |
| SeatReservation.RemoveMatching | src/queue/seat-reservation.service.ts:77-86 | the loop leaves the queue equal to the old queue without every matching job, in order |
| SeatReservation.Confirm | src/queue/seat-reservation.service.ts:88-98 | every listed existing seat becomes booked whatever its status; all other seats and tables are unchanged |
| SeatReservation.ConfirmPayment | src/queue/seat-reservation.service.ts:74-106 | the queue loses the matching jobs, the listed seats are booked and the success message is returned; the user id is ignored |
| SeatReservation.ConfirmDisarmsHold | src/queue/seat-reservation.service.ts:77-86 | after confirming, no release job for the same showtime and list remains, and every non-matching job is kept |
| SeatReservation.ReorderedHoldSurvives | src/queue/seat-reservation.service.ts:80-83 | a hold of the same seats in another order is not removed, because the comparison is element-wise |
| SeatReservation.SeatBeforeIsTotalPreorder | src/queue/seat-reservation.service.ts:132-135 | ordering by (row, seat number) is a total preorder |
| SeatReservation.GroupByRowOfSorted | src/queue/seat-reservation.service.ts:139-151 | grouping a row-sorted list keeps every seat in its order, puts each under its own row, and gives non-empty groups in ascending row order |
| SeatReservation.JoinLastGroup | src/queue/seat-reservation.service.ts:141-149 | a seat of the current last row is appended to that row's group |
| SeatReservation.OpenGroup | src/queue/seat-reservation.service.ts:141-149 | a seat of a later row opens a new group at the end |
| SeatReservation.ObjectEntriesOrder | src/queue/seat-reservation.service.ts:166 | `Object.entries` lists the same row groups, rows that are array indices first in ascending numeric order, then the other rows in the ascending order they were inserted |
| SeatReservation.SortByIndexSorts | src/queue/seat-reservation.service.ts:166 | ordering the index rows keeps exactly the same groups and puts them in ascending numeric order |
| SeatReservation.NumericRowsComeFirst | src/queue/seat-reservation.service.ts:166 | rows "10", "2" and "A" come out as "2", "10", "A" |
| SeatReservation.ListsRoomOfOrdered | src/queue/seat-reservation.service.ts:130-169 | in the listed rows each group shows only seats of the room under their own row; every seat of the room is shown; within a row the seats are distinct and by seat number; no group is empty; the rows are in `Object.entries` key order |
| SeatReservation.ShownOnce | src/queue/seat-reservation.service.ts:139-169 | in a listed map each seat of the room appears at exactly one place |
| SeatReservation.GetSeatsForShowtime | src/queue/seat-reservation.service.ts:108-174 | a missing showtime gives BadRequest; a missing room or movie gives BadRequest with the required-relation error; a room seat whose row is an inherited `Object.prototype` name gives BadRequest with the failed `push` error; otherwise (and exactly then Ok) the showtime, room and movie fields are copied and the rows list the room's seats in `Object.entries` order |
| SeatRelease.HandleReleaseSeat | src/queue/seat-reservation.processor.ts:10-40 | the job leaves the tables equal to the release step, and reports whether an error was logged |
| SeatRelease.ReleaseEffect | src/queue/seat-reservation.processor.ts:15-39 | every listed seat becomes available whatever its status; the showtime counter rises by the list length; nothing else changes; when the counter update fails the seats stay released |
| SeatRelease.ReleaseFreesBookedSeat | src/queue/seat-reservation.processor.ts:15-24 | a booked seat in the payload becomes available |
| SeatRelease.ReleaseUndoesReserve | src/queue/seat-reservation.processor.ts:15-36 | a successful hold followed by its release job restores the tables exactly |
| SeatRelease.ReorderedConfirmIsUndone | src/queue/seat-reservation.processor.ts:15-24 | a payment confirmed with the seat ids reordered keeps the hold's job, and running it frees the booked seats |
| ZaloPay.TotalOfAppend | src/payment/zalopay.service.ts:62-66 | the total grows by a detail's seat price exactly when the detail belongs to the booking |
| ZaloPay.TotalBounds | src/payment/zalopay.service.ts:62-66 | with non-negative prices the total is non-negative, and it is 0 for a booking without details |
| ZaloPay.MacInputFields | src/payment/zalopay.service.ts:114-121 | the MAC input splits at the bar character into app_id, app_trans_id, app_user, amount, app_time, embed_data and item, in that order |
| ZaloPay.QueryMacInputFields | src/payment/zalopay.service.ts:161 | the status query's MAC input splits into app_id, app_trans_id and key1 |
| ZaloPay.CreatePayment | src/payment/zalopay.service.ts:42-149 | the new tables, the answer and the order sent are those of the payment-creation step |
| ZaloPay.CreatePaymentNeedsBooking | src/payment/zalopay.service.ts:45-58 | a missing booking fails with 'Booking not found' before any write and sends nothing |
| ZaloPay.CreatePaymentWritesTotal | src/payment/zalopay.service.ts:60-79 | an unset total is written as the sum of the linked seat prices, with booking code `BK<id>_<now>`; other bookings are unchanged |
| ZaloPay.CreatePaymentRefusesSmallAmount | src/payment/zalopay.service.ts:81-84 | a total below 1000 fails, sends no order and stores no payment, after the total was written |
| ZaloPay.CreatePaymentOrder | src/payment/zalopay.service.ts:86-143 | the order carries the total as amount and item price, the email or 'user123' as app_user, and the MAC of its own fields; a pending payment is stored only when the gateway answers |
| ZaloPay.BuildOrderFields | src/payment/zalopay.service.ts:95-123 | each field of the built order, and that the MAC is taken over the order without its MAC |
| ZaloPay.BookingCodeInjective | src/payment/zalopay.service.ts:73 | booking codes taken at different instants differ |
| ZaloPay.DescribedCodeMayDiffer | src/payment/zalopay.service.ts:73-100 | the description reads the clock again, so it can name a booking code other than the stored one |
| ZaloPay.FirstPaymentOf | src/payment/zalopay.service.ts:178-180 | the position found is the first payment of the booking, or the end when there is none |
| ZaloPay.SeatsOfBooking | src/payment/zalopay.service.ts:194-201 | exactly the seats linked to the booking through a booking detail |
| ZaloPay.HandlePaymentSuccess | src/payment/zalopay.service.ts:177-207 | the tables become the success step's; on its error they are unchanged and the error is returned |
| ZaloPay.HandlePaymentFailure | src/payment/zalopay.service.ts:209-227 | the tables become the failure step's; on its error they are unchanged and the error is returned |
| ZaloPay.HandlersNeedPayment | src/payment/zalopay.service.ts:178-186 | both handlers fail iff the booking has no payment or does not exist |
| ZaloPay.SuccessEffect | src/payment/zalopay.service.ts:182-206 | the first payment becomes completed, the booking confirmed/completed, and every linked seat booked; nothing else changes |
| ZaloPay.FirstPaymentOfStatusChange | src/payment/zalopay.service.ts:178-185 | changing a payment's status does not move the booking's first payment |
| ZaloPay.SuccessIdempotent | src/payment/zalopay.service.ts:177-207 | applying the success handler twice equals applying it once |
| ZaloPay.FailureEffect | src/payment/zalopay.service.ts:214-226 | the first payment becomes failed and the booking cancelled/failed; seats and everything else are unchanged |
| ZaloPay.FailureAfterSuccess | src/payment/zalopay.service.ts:209-227 | a failure after a success is accepted and leaves a cancelled, failed booking whose seats stay booked |
| PaymentController.Rewrap | src/payment/payment.controller.ts:52-58 | every error becomes an HTTP 500 carrying its message, or the default message when it has none |
| PaymentController.CreatePaymentEndpoint | src/payment/payment.controller.ts:34-59 | a caller who does not own an existing booking gets the rewrapped Unauthorized and nothing changes; otherwise the service's result, with errors rewrapped |
| PaymentController.HandleCallback | src/payment/payment.controller.ts:62-111 | the tables and the reply are those of the callback step |
| PaymentController.MacNeverRejected | src/payment/payment.controller.ts:74-83 | the MAC check always passes, so the 'mac not equal' reply never happens |
| PaymentController.CallbackDispatch | src/payment/payment.controller.ts:91-110 | type strictly equal to 1 runs the success handler and any other value the failure handler; return_code echoes the type, and the message is 'success' iff the type is 1; a handler error gives -3 and no change |
| PaymentController.CallbackFailureChangesNothing | src/payment/payment.controller.ts:104-110 | a -3 reply leaves the tables unchanged |
| PaymentController.CheckPaymentStatus | src/payment/payment.controller.ts:116-138 | the gateway is queried iff the caller owns the booking, with the booking id as transaction id; an owner gets exactly the gateway's answer; a gateway error or a non-owner gets the fixed status-check 500 |
| PaymentController.QueryMissesTransaction | src/payment/payment.controller.ts:121-130 | the transaction id queried is never the one the created order carries |
| Showtimes.ClockMinutesOfText | src/showtime/showtime.service.ts:30-38 | an "HH:mm" text is read as 60·HH + mm minutes after midnight |
| Showtimes.ClockMinutesOfParts | src/showtime/showtime.service.ts:30-38 | a text splitting into two numbers h and m is read as 60·h + m, with no range check |
| Showtimes.ClockMinutesNeedsColon | src/showtime/showtime.service.ts:30-38 | a text without ':' gives no time, and the creation fails |
| Showtimes.CreateShowtime | src/showtime/showtime.service.ts:9-105 | the new tables and the answer are those of the creation step |
| Showtimes.CreateChecksMovieThenRoom | src/showtime/showtime.service.ts:12-27 | a missing movie is refused first, then a missing room, each as BadRequest with nothing changed |
| Showtimes.CreateDecides | src/showtime/showtime.service.ts:40-84 | the overlap error happens iff a same-room, same-date showtime clashes; errors change nothing; otherwise one active showtime with the room's capacity is added under a fresh id |
| Showtimes.CreateKeepsSequencesAhead | src/showtime/showtime.service.ts:69-84 | the showtime id sequence stays past every stored id |
| Showtimes.EnclosedShowtimeIsNoConflict | src/showtime/showtime.service.ts:45-58 | a new interval strictly enclosing an existing one is not a conflict |
| Showtimes.ConflictIsPerRoomAndDate | src/showtime/showtime.service.ts:42-44 | showtimes of another room or date never conflict |
| RateLimit.Decide | src/redis/rate-limit.service.ts:8-23 | a request is refused exactly when the counter is left unwritten |
| RateLimit.IsRateLimited | src/redis/rate-limit.service.ts:8-23 | an absent key stores 1; a count at or over the limit refuses and leaves store and TTL alone; otherwise count + 1 is stored and the TTL reset |
| RateLimit.Remaining | src/redis/rate-limit.service.ts:25-29 | the limit for an absent key, else max(0, limit − count); NaN when the value is not a number |
| RateLimit.GetRemainingRequests | src/redis/rate-limit.service.ts:25-29 | the remaining count of the key's current value, with no write |
| RateLimit.RemainingWithinLimit | src/redis/rate-limit.service.ts:25-29 | for a stored count the remaining count lies in [0, limit] |
| RateLimit.FixedWindow | src/redis/rate-limit.service.ts:8-23 | from an empty key, after n calls the stored count is min(n, L), and a call is refused iff n ≥ L |
| RateLimit.RefusalKeepsWindow | src/redis/rate-limit.service.ts:16-22 | a refusal means a numeric count at or over the limit; an accepted call always writes |
| RateLimit.NotANumberNeverLimits | src/redis/rate-limit.service.ts:16-22 | a non-numeric value is never limited and is overwritten with "NaN", which stays unlimited |
| RateLimit.KeyValueStore.Set | src/redis/rate-limit.service.ts:12 | a write stores the value and the TTL of that key only |
| RateLimit.OrDefault | src/redis/rate-limit.guard.ts:25-26 | metadata that is absent or 0 falls back to the default |
| RateLimit.RateKeyInjective | src/redis/rate-limit.guard.ts:22 | the key `rate_limit:<ip>:<path>` determines the ip and the path when the ip holds no ':' |
| RateLimit.CanActivate | src/redis/rate-limit.guard.ts:12-44 | the guard uses limit 50 and window 1800 by default, updates the counter as the service does, and reports the remaining count after the update; a refusal raises 429 with the window |
| RateLimit.DecoratorLimitIgnored | src/redis/rate-limit.decorator.ts:3-6 | the decorator's limit never reaches the guard, which always uses 50; a non-zero window does; with no window given the guard uses 3600 seconds |
| RateLimit.RemainingAfterUpdate | src/redis/rate-limit.guard.ts:28-33 | on an accepted request the header shows the limit minus the updated count |
| RateLimit.RemainingAfterFirst | src/redis/rate-limit.guard.ts:28-33 | the first request of a window shows limit − 1 remaining |
| Roles.NoRolesAllowsAll | src/auth/guards/roles.guards.ts:9-14 | with no roles metadata every request passes |
| Roles.NumericRoleDecides | src/auth/guards/roles.guards.ts:20-28 | a non-zero numeric role passes iff its decimal text is listed; a role of 0, an undefined role, or no user is refused |
| Roles.SignedClaims | src/auth/auth.service.ts:36-41 | the token carries `role` and `user_id` claims but no `role_id` |
| Roles.TokenUsersFailRoleChecks | src/auth/strategies/jwt.strategy.ts:15-20 | a principal built from a signed token has no role_id, so every role-protected route refuses it |
| Roles.TokenKeepsUserId | src/auth/strategies/jwt.strategy.ts:15-20 | the principal keeps the token's user id |
| Movies.NewestFirstIsTotalPreorder | src/movie/movie.service.ts:17 | newest-first order on creation time is a total preorder |
| Movies.GenreNamesOfResolved | src/movie/movie.service.ts:37 | when every link resolves, the genre names are the linked genres' names, one per link, in link order |
| Movies.FindAll | src/movie/movie.service.ts:8-42 | NotFound iff no movie is active; the listing failure iff an active movie links to a missing genre; otherwise each active movie exactly once, with its genre names, newest first |
| Movies.TodayIsNotUpcoming | src/movie/movie.service.ts:52-56 | a showtime dated today after midnight is not listed, since the date is compared with the current instant |
| Movies.FindOne | src/movie/movie.service.ts:44-94 | a missing id gives NotFound; otherwise the movie, even an inactive one, with every active showtime dated at or after now, by ascending id, with its room name; a missing genre or a missing room becomes the lookup failure |
| Movies.GenreCountCheck | src/movie/movie.service.ts:111-121 | the matched-genre count equals the list length iff the ids are distinct and all exist |
| Movies.CreateMovie | src/movie/movie.service.ts:96-169 | the new tables and the answer are those of the creation step |
| Movies.CreateEffect | src/movie/movie.service.ts:99-148 | missing required fields fail before any lookup; otherwise success iff the genre ids are distinct and known and the date is valid; a new active movie is created under the next id, with those genre ids appended to its links in order; every refusal (missing fields, too many or unknown genres, invalid date) leaves the tables unchanged |
| Movies.CreateLinksExactly | src/movie/movie.service.ts:123-148 | when the id sequence is ahead of every movie and every genre link, the new movie takes an unused id, is linked to exactly the given genre ids in order, and the sequence stays ahead |
| Movies.UpdateMovie | src/movie/movie.service.ts:171-203 | the new tables and the answer are those of the update step |
| Movies.UpdateKeepsLinksAhead | src/movie/movie.service.ts:173-197 | an update, successful or not, keeps every genre link pointing below the movie id sequence, since links are only added for a stored movie |
| Movies.UpdateReplacesLinks | src/movie/movie.service.ts:173-197 | on success the movie's links are exactly the new genre ids; on failure its old links are gone anyway; other movies' links are unchanged |
| Movies.DeleteMovie | src/movie/movie.service.ts:205-215 | the new tables and the answer are those of the delete step |
| Movies.DeleteIsSoft | src/movie/movie.service.ts:205-211 | the movie becomes inactive and leaves the active list but stays stored; no other movie's listing changes |
| Users.ViewsHidePassword | src/user/user.service.ts:33-42 | no view returned by the service depends on the password |
| Users.CreateUser | src/user/user.service.ts:10-46 | the new tables and the answer are those of the creation step |
| Users.CreateEffect | src/user/user.service.ts:12-31 | Conflict iff the email is taken, with nothing changed; otherwise a new user under the next id with the request's email, name and phone, the hashed password, role 2, active status, an unverified email and `now` as creation and update time, and the reply is that user's view; other users are unchanged; emails stay unique |
| Users.GetAllUsers | src/user/user.service.ts:48-61 | every user exactly once, by ascending id, without the password |
| Users.GetUserById | src/user/user.service.ts:63-83 | the user's view iff the id exists, else NotFound |
| Users.GetUserProfile | src/user/user.service.ts:114-133 | the profile iff the id exists, else NotFound; the profile carries the user's id, email, name, phone, email-verified flag, creation time and status |
| Users.UpdateUserStatus | src/user/user.service.ts:85-101 | the new tables and the answer are those of the status step |
| Users.StatusChangesOnlyStatus | src/user/user.service.ts:85-94 | only the target user's status changes; a missing id fails with the database error, not NotFound |
| Users.DeleteUser | src/user/user.service.ts:103-112 | the new tables and the answer are those of the delete step |
| Users.DeleteRemovesOnlyThatUser | src/user/user.service.ts:103-111 | NotFound iff the id is missing; otherwise only that user is removed |
| Users.DeletedEmailIsFree | src/user/user.service.ts:12-18 | once a user is deleted, their email can be registered again |

## Left out

**Foreign functions, clocks and I/O.** These are parameters of the model:
- HMAC-SHA256, bcrypt, JWT signing and verification;
- the JSON encoders of `embed_data` and `item`;
- the axios calls to the gateway;
- `moment` formatting, `Math.random` and `Date.now`;
- the validity of `new Date(text)`.

The model states only the inputs these pieces are given.

**Numbers, dates and text.**
- Prices, totals and counters are unbounded integers in VND. Prisma's Decimal and the conversion with `Number` are not modelled, so `Math.floor` of the total is the total.
- Show dates are day numbers and clock times are minutes after midnight. Time zones, `setHours` crossing midnight, and the `toString().slice(0, 5)` rendering of start and end times are not modelled.
- `parseInt` covers ASCII whitespace, an optional sign, `0x` prefixes and decimal digits. Exponent notation and Unicode whitespace are not modelled.
- Strings compare by code point. The database's collation for `orderBy` on rows is not modelled.
- `Number(id)` of a route parameter: ids arrive as integers.
- A callback whose booking id is not a number: the model answers -3 without calling a handler, which stands for the failing database lookup.

**Concurrency and time.**
- Operations run one at a time. The gap between `reserveSeats`' check and its update is not modelled, and neither is Redis or Bull concurrency.
- Redis TTL expiry is only the explicit `KeyValueStore.Expire` step.
- When a delayed job runs is left to the caller: `SeatRelease.HandleReleaseSeat` takes the job.

**Database behaviour.**
- The database is one `Tables` value. The model covers the effect of each query, not its SQL.
- Queries without `orderBy` return rows by ascending id.
- Genre links are returned in insertion order.
- `orderBy` ties are broken by ascending id: seats with the same row and seat number, and movies with the same creation time. The database's own order for such ties is not modelled.
- A new user's `email_verified` is taken to be false, the column's default.
- Foreign-key and unique constraints are not modelled:
  - an update given the same genre id twice stores both links;
  - deleting a user who has bookings succeeds.
- Prisma's error texts are stand-in constants.
- The `updated_at` stamp written by `updateUserStatus` is not recorded.
- A movie created without an explicit status is taken to be `active`, the column's default.

**Framework parts.**
- NestJS modules, dependency injection and DTO validation.
- The controllers other than the payment controller.
- Cloudinary upload.
- `getAllGenres` and the other movie-service helpers outside `findAll`, `findOne`, `create`, `update` and `delete`.

**Weaker contracts.**
- Showtimes.ClockMinutes: its own contract only says a parsed time had a ':'. What it computes is stated by `Showtimes.ClockMinutesOfText`, `Showtimes.ClockMinutesOfParts` and `Showtimes.ClockMinutesNeedsColon`.
- Movies.FindOne: the ascending-id order of the listed showtimes assumes that query returns rows by id, as stated above.
