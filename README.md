# Seat allocation, waitlist and cache of backend_ticket, in Dafny

This project models the core of a FastAPI ticket-booking backend:

- users book seats at events and cancel them;
- when an event is full, users join a waitlist with dense positions 1..N;
- an explicit call (`process_waitlist`) promotes the head of the waitlist as long as seats are free;
- reads are served from an in-process TTL cache that state changes invalidate.

The model has these modules:

- `Models` holds the records of the persistence layer and one error variant per HTTP detail.
- `Ledger` holds the booking ledger as values:
  - the `booked_count` counter and the live count of `BOOKED` rows;
  - the partial event patch;
  - the rows of the event listing.
- `Queue` holds the waitlist table as a sequence of rows, together with its queries and its renumbering.
- `Tables` holds the store invariant and one lemma per table-changing step that preserves it.
- `CacheUtils` is `_memory_cache` as a class `MemoryCache` whose methods mutate its `entries` map. It also holds the four key generators and the invalidation helpers. Integer ids are rendered through the `Decimal` module, which is Python's `str(int)`.
- `Routers` has a class `Store` with one method per handler of `users.py`, `admin.py` and `waitlist.py`. Each handler that can fail returns a `Result` whose `Err` variants mirror the handler's distinct HTTP details.

The store invariant (`Store.Valid`, which is `Tables.StoreInvariant`) says:

- ids are below their counters;
- emails are unique;
- every event's `booked_count` equals its live number of `BOOKED` bookings;
- every booking references an event;
- every waitlist row's position is one more than the number of earlier rows of its event (`Queue.Ranked`);
- a user has at most one row per event.

From `Ranked` the lemmas derive two facts:

- the positions of an event are exactly 1..N;
- table order is queue order.

`booked_count <= capacity` is not part of the invariant, because `update_event` can break it. It is proved as a separate property (`Ledger.WithinCapacity`) of every handler with two exceptions: `update_event`, and `create_event` given a negative capacity.

Some behaviour of the code is worth stating explicitly:

- `book_ticket` checks only the `booked_count` counter. It does not check for an existing booking, a waitlist row or the user.
- `cancel_booking` promotes no one. Only `process_waitlist` promotes.
- The waitlist handlers invalidate no cache key.
- `create_event` accepts any capacity.
- `update_event` can set a capacity below `booked_count` (`Ledger.PatchCanOverbook`).
- `app/main.py` does not mount the waitlist router. Also, `waitlist.py` line 7 imports `WaitlistRequest` and `WaitlistResponse`, and `app/schemas.py` defines neither, so the module as it stands fails on import. The model covers its handler logic anyway.

## Model

| member | source | states |
|---|---|---|
| Decimal.NatToString | app/cache/cache_utils.py:54-60 | the rendering of a natural number is non-empty, all digits, with no leading zero |
| Decimal.ParseNatToString | app/cache/cache_utils.py:54-60 | reading the digits back gives the number |
| Decimal.IntToStringRoundTrip | app/cache/cache_utils.py:54-60 | reading the rendering of any int (sign included) back gives the int |
| Decimal.IntToStringInjective | app/cache/cache_utils.py:54-60 | two ints render equal exactly when they are equal |
| CacheUtils.StripStars | app/cache/cache_utils.py:45 | `replace('*', '')` leaves no star, never lengthens, leaves a star-free pattern unchanged, and turns a single star into nothing and any other single character into itself |
| CacheUtils.StripStarsConcat | app/cache/cache_utils.py:45 | a concatenation strips part by part; with the one-character case of StripStars this keeps exactly the non-star characters, in order |
| CacheUtils.KeysDistinct | app/cache/cache_utils.py:49-64 | the four key families never collide, and the id keys are equal exactly when the ids are |
| CacheUtils.EventCacheKeysCover | app/cache/cache_utils.py:67-72 | invalidation always removes the listing and analytics keys; it removes the event key exactly when the id is non-zero, and never a user key |
| CacheUtils.GetAfterSet | app/cache/cache_utils.py:10-28 | a value set at time t with ttl d is read back unchanged at every time before t + d, and the read leaves the cache as it is |
| CacheUtils.GetAfterExpiry | app/cache/cache_utils.py:23-28 | from its expiry on an entry reads as absent; the read deletes that key and keeps every other |
| CacheUtils.StarMatchesEverything | app/cache/cache_utils.py:45 | the pattern "*" matches every key in the cache |
| CacheUtils.MemoryCache.constructor | app/cache/cache_utils.py:8 | the cache starts empty |
| CacheUtils.MemoryCache.SetCache | app/cache/cache_utils.py:10-15 | the key's entry becomes (value, now + ttl) and no other key changes |
| CacheUtils.MemoryCache.GetCache | app/cache/cache_utils.py:17-28 | returns the value while the entry is fresh and None otherwise; an expired entry is deleted |
| CacheUtils.MemoryCache.DeleteCache | app/cache/cache_utils.py:30-35 | removes exactly that key, and is a no-op when it is absent |
| CacheUtils.MemoryCache.ClearCachePattern | app/cache/cache_utils.py:37-47 | the loop deletes exactly the keys that start with the star-free pattern and keeps all others |
| CacheUtils.MemoryCache.InvalidateEventCaches | app/cache/cache_utils.py:67-72 | removes exactly the listing key, the analytics key and, for a truthy id, the event key |
| CacheUtils.MemoryCache.InvalidateUserBookingCache | app/cache/cache_utils.py:74-76 | removes exactly the user's history key |
| Ledger.CountBookedAppend | app/routers/users.py:104-106 | a new booking raises only its own event's live count, by one when it is `BOOKED` |
| Ledger.CountBookedUnreferenced | app/routers/admin.py:26-33 | an event no booking references has no `BOOKED` booking, so a new event starts at zero |
| Ledger.CountBookedAfterCancel | app/routers/users.py:131-134 | cancelling a `BOOKED` booking lowers its event's live count by exactly one and no other event's |
| Ledger.CountBookedAfterPromotions | app/routers/waitlist.py:266-268 | promoting k users adds k to the event's live count and nothing to any other event's |
| Ledger.PromotedBookingsSnoc | app/routers/waitlist.py:266-268 | promoting users one by one yields the same bookings as promoting the run at once |
| Ledger.BookKeepsLedger | app/routers/waitlist.py:44-65 | a new `BOOKED` booking plus the counter set to the old live count + 1 keeps every counter in step with the ledger |
| Ledger.SetCountWithinCapacity | app/routers/users.py:100-106 | a counter set within its event's capacity (or lowered) keeps every event within capacity |
| Ledger.PatchProperties | app/routers/admin.py:56-63 | the patch never changes `booked_count`; an empty patch changes nothing; patching is idempotent; the capacity changes exactly when the patch carries one |
| Ledger.PatchCanOverbook | app/routers/admin.py:62-63 | an event within capacity can be patched to one whose `booked_count` exceeds its capacity |
| Ledger.ListingMatchesLedger | app/routers/users.py:74-85 | one listing row per event; `available_spots` is capacity minus the live `BOOKED` count, and it is non-negative exactly when that count is within capacity |
| Queue.MaxPosition | app/routers/waitlist.py:13-15 | None exactly when the event has no row; otherwise the position of one of its rows at least every other one |
| Queue.NextPosition | app/routers/waitlist.py:11-16 | 1 for an empty waitlist, otherwise above every position of the event and exactly one above the maximum |
| Queue.FindEntry | app/routers/waitlist.py:154-157 | None exactly when no row is for (user, event); otherwise the index of the first such row |
| Queue.LowestIndex | app/routers/waitlist.py:37-39 | None exactly when the event has no row; otherwise a row of the event with the lowest position |
| Queue.QueueOfEmpty | app/routers/waitlist.py:37-42 | the event's queue is empty exactly when no row is for the event |
| Queue.RankOf | app/routers/waitlist.py:241-245 | a row's position lies in 1..N and names that row's user in the event's queue |
| Queue.MaxPositionRanked | app/routers/waitlist.py:13-16 | on a ranked table the maximum position is the queue length, or None for an empty queue |
| Queue.NextPositionRanked | app/routers/waitlist.py:11-16 | on a ranked table the next position is the queue length + 1 |
| Queue.PositionsContiguous | app/routers/waitlist.py:131-143 | on a ranked table the event's positions are exactly 1..N |
| Queue.EntriesOfRanked | app/routers/waitlist.py:195-197 | the event's rows in table order are the queue's users at positions 1, 2, ..., N |
| Queue.FrontIsHead | app/routers/waitlist.py:37-39 | the row of lowest position has position 1 and holds the first user of the queue |
| Queue.JoinPreservesRanked | app/routers/waitlist.py:131-139 | appending a row at the next position keeps the table ranked, appends the user to that queue and leaves the other queues alone |
| Queue.JoinPreservesUnique | app/routers/waitlist.py:107-117 | appending a row for a (user, event) pair not yet present keeps the pairs unique |
| Queue.RemovePreservesRanked | app/routers/waitlist.py:165-175 | deleting a row and shifting the later rows of its event down keeps the table ranked, removes that user from the queue and keeps the order and the other queues |
| Queue.RemoveShiftCommute | app/routers/waitlist.py:53-62 | deleting the row and then renumbering equals renumbering and then deleting |
| Queue.RemovePreservesUnique | app/routers/waitlist.py:154-175 | after the removal the pairs stay unique and the user is no longer on that event's waitlist |
| Queue.PopHead | app/routers/waitlist.py:36-62 | removing the lowest-position row pops the head of the queue, keeps the table ranked and unique, and leaves the other queues alone |
| Tables.PromoteKeepsInvariant | app/routers/waitlist.py:44-66 | one promotion keeps the store invariant, leaves the event within capacity, and pops exactly the head of its queue |
| Tables.BookKeepsInvariant | app/routers/users.py:103-107 | one booking with `booked_count += 1` keeps the store invariant |
| Tables.CancelKeepsInvariant | app/routers/users.py:131-135 | one cancellation with `booked_count -= 1` keeps the store invariant, and the counter stays non-negative |
| Routers.Store.constructor | app/cache/cache_utils.py:8 | an empty database satisfies the invariant and the cache is empty |
| Routers.Store.CreateUser | app/routers/users.py:33-52 | a registered email is refused with nothing added; otherwise exactly one user with a fresh id is added, and that user is an administrator exactly when the requested role is "admin" |
| Routers.Store.GetEvents | app/routers/users.py:60-90 | a fresh cached listing is returned as cached; otherwise the listing is rebuilt from the events table and cached for 300 seconds |
| Routers.Store.BookTicket | app/routers/users.py:92-120 | a missing event and a full counter are refused with nothing changed; every other request succeeds: one `BOOKED` booking is appended, only that event's counter rises by one, the invariant and capacity bound hold, and the four cache keys go |
| Routers.Store.CancelBooking | app/routers/users.py:122-148 | an unknown id and an already cancelled booking are refused with nothing changed; every `BOOKED` booking is cancelled: only that booking becomes `CANCELLED`, its event's counter falls by one, the waitlist is untouched and the cache keys go |
| Routers.Store.CancelBookingAsWritten | app/routers/users.py:125-131 | as written, the status lookup at line 128 finds no `cancelled` member of `BookingStatus`, so every existing booking id fails before any write |
| Routers.Store.CreateEvent | app/routers/admin.py:23-47 | the new event gets a fresh id and `booked_count` 0; only the listing and analytics keys are invalidated |
| Routers.Store.UpdateEvent | app/routers/admin.py:49-78 | a missing id is refused with nothing changed; otherwise only that event changes, by the patch, with `booked_count` kept, and its keys are invalidated |
| Routers.Store.ClearAllCache | app/routers/admin.py:159-167 | the cache ends empty |
| Routers.Store.ClearEventsCache | app/routers/admin.py:169-176 | exactly the listing and analytics keys are removed |
| Routers.Store.RenumberAfter | app/routers/waitlist.py:56-62 | the loop moves each row of the event behind the position up one place and leaves every other row |
| Routers.Store.MoveFromWaitlistToBooking | app/routers/waitlist.py:18-68 | true exactly when the event exists, its live count is below capacity and its queue is non-empty; false changes nothing; true books the head of the queue, removes its row, renumbers, sets the counter to the live count + 1 (within capacity) and keeps the invariant |
| Routers.Store.PromoteHead | app/routers/waitlist.py:44-67 | the writes of a promotion: the head's booking, the row deleted, the renumbering, and the counter set to the live count + 1 |
| Routers.Store.JoinWaitlist | app/routers/waitlist.py:70-143 | the five guards refuse, in order, with their own errors and no change; a request passing all five succeeds, and one row is appended at position N + 1, the positions become 1..N+1 and the other queues are unchanged |
| Routers.Store.LeaveWaitlist | app/routers/waitlist.py:145-178 | a user not on the waitlist is refused with no change; otherwise that row is deleted, later rows move up, the order is kept and the positions become 1..N-1 |
| Routers.Store.GetEventWaitlist | app/routers/waitlist.py:180-199 | a missing event is refused; otherwise the rows of the event are returned with positions 1..N in queue order |
| Routers.Store.GetWaitlistPosition | app/routers/waitlist.py:222-246 | a user not on the waitlist is refused; otherwise the row's position (in 1..N, naming that user) and the queue length |
| Routers.Store.ProcessWaitlist | app/routers/waitlist.py:248-273 | a missing event is refused with no change; otherwise the loop ends having promoted exactly the first min(N, capacity - live count) queued users in order, reports that number, and leaves the other queues and events alone |
| Routers.Store.WaitlistRound | app/routers/waitlist.py:266-268 | one turn of the loop: either the next user of the original queue is promoted, or the loop has run out of users or seats |
| Routers.PromotionStep | app/routers/waitlist.py:266-268 | after one more promotion the bookings, the queue and the counter equal those of promoting one more user of the original queue |
| Routers.ProcessOutcome | app/routers/waitlist.py:266-273 | when the loop stops it has promoted exactly min(N, free seats) users, and the event stays within capacity |
| Routers.PromotableStops | app/routers/waitlist.py:266-268 | a count that stops at the queue length or at the free seats, and never overshoots them, is exactly min(N, free seats) |
| Routers.CancelledIsNotAMember | app/routers/users.py:128-131 | `cancelled` is not a member of `BookingStatus`; `CANCELLED` is |

## Left out

- The Redis branches of the cache (`redis_client` in cache_utils.py) are out, because they are a foreign network client. The model is the branch without Redis.
- Row locks (`with_for_update`), concurrent requests and the load-test tools are out. Each handler is one atomic, sequential step.
- Session `commit`/`refresh` and storage failures are out.
- HTTP wiring is out: status codes, FastAPI routing, `app/main.py`, `app/database.py` and the stub routers. Errors are `Err` results.
- Wall-clock time is out. The cache takes `now` as a parameter, and expiry is `now + ttl` on integers rather than floats.
- Event times are opaque integers, and `joined_at` is not modelled.
- Response dictionaries are reduced to the fields the handlers return. Listing rows keep `time` as the opaque integer rather than its ISO string.
- Ledger.ListingRows and Routers.Store.GetEvents return the listing as a map keyed by event id, not as a list. They drop the row order of `db.query(Event).all()`, which the source leaves unspecified anyway.
- Database constraints are not modelled: foreign keys, `NOT NULL` and uniqueness. For example, `bookings.user_id` is a non-null foreign key to `users`. On a database that enforces it, the commit in `book_ticket` fails for an unknown user and the `booked_count` increment is rolled back. In the model, Routers.Store.BookTicket succeeds and appends a booking for a user that does not exist.
- The analytics handler (float utilisation percentages), `cache_status` and `check_admin` are out.
- `get_users`, `get_user_bookings` and `get_user_waitlists` are out because they only read.
- Python integers are unbounded, like Dafny's `int`. The 32-bit width of the database's Integer columns is not modelled.
- Routers.Store.GetEvents: the cached value is the model's `CachedValue`, not JSON, so values cached by handlers outside this model appear as opaque text.
- Routers.Store.ProcessWaitlist: the returned message string is not modelled; only `moved_to_bookings` is.
- Routers.Store.PromoteHead and Routers.Store.WaitlistRound are parts of `move_from_waitlist_to_booking` and of the loop of `process_waitlist`. They are split out as separate methods so that each proof stays small.

## Findings

| source | as written | input that shows it | evidently intended | confidence | as-written member | corrected member |
|---|---|---|---|---|---|---|
| app/routers/users.py:128-131 | compares with and assigns `BookingStatus.cancelled`, but the enum defines only `BOOKED` and `CANCELLED` (app/models/booking.py:6-8), so the attribute lookup raises | any existing booking, e.g. id 1 after one successful `book_ticket` | `BOOKED` becomes `CANCELLED` and `booked_count` falls by one | not executed | Routers.Store.CancelBookingAsWritten | Routers.Store.CancelBooking |
