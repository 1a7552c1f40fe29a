/**
 * The handlers of app/routers/users.py, admin.py and waitlist.py over one
 * store: the users, events, bookings and waitlist tables of the database
 * session, and the process-wide memory cache. Each handler is one atomic
 * step; its HTTP errors are `Err` results.
 */
module Routers {
  import opened Wrappers
  import opened Models
  import opened Ledger
  import opened Queue
  import opened CacheUtils
  import opened Tables

  /** What the routers cache: the event listing, or a JSON document of a reader outside this model. */
  datatype CachedValue = EventListing(rows: map<int, EventRow>) | Json(text: string)

  /** The answer of `get_waitlist_position`. */
  datatype PositionInfo = PositionInfo(position: int, totalInWaitlist: nat)

  /** Seconds the `events:all` listing stays cached. */
  const ListingTtl := 300

  class Store {
    var users: map<int, User>
    var events: map<int, Event>
    /** Append-only; the booking with id k is `bookings[k - 1]`. */
    var bookings: seq<Booking>
    /** Rows in insertion order. */
    var waitlist: seq<Entry>
    var nextUserId: int
    var nextEventId: int
    const cache: MemoryCache<CachedValue>

    /** The store invariant: fresh ids, unique emails, counters in step with the ledger, a dense FIFO waitlist. */
    ghost predicate Valid()
      reads this
    {
      StoreInvariant(users, events, bookings, waitlist, nextUserId, nextEventId)
    }

    /** An empty database and an empty cache. */
    constructor ()
      ensures Valid() && fresh(cache)
      ensures users == map[] && events == map[] && bookings == [] && waitlist == []
      ensures cache.entries == map[]
    {
      users, events, bookings, waitlist := map[], map[], [], [];
      nextUserId, nextEventId := 1, 1;
      cache := new MemoryCache();
    }

    // -----------------------------------------------------------------
    // app/routers/users.py

    /** `create_user`: refuses an email already registered. */
    method CreateUser(name: string, email: string, password: string, role: string) returns (r: Result<int>)
      requires Valid()
      modifies this`users, this`nextUserId
      ensures Valid()
      ensures EmailTaken(old(users), email) ==>
                r == Err(EmailAlreadyRegistered) && users == old(users) && nextUserId == old(nextUserId)
      ensures !EmailTaken(old(users), email) ==>
                && r == Ok(old(nextUserId))
                && old(nextUserId) !in old(users)
                && users == old(users)[old(nextUserId) := User(name, email, password, RoleOf(role))]
                && nextUserId == old(nextUserId) + 1
    {
      if EmailTaken(users, email) {
        return Err(EmailAlreadyRegistered);
      }
      var id := nextUserId;
      users := users[id := User(name, email, password, RoleOf(role))];
      nextUserId := nextUserId + 1;
      r := Ok(id);
    }

    /** `get_events`: the cached listing while fresh; otherwise the listing rebuilt and cached for 300 s. */
    method GetEvents(now: int) returns (r: CachedValue)
      modifies cache
      ensures Lookup(old(cache.entries), EventsKey(), now).Some? ==>
                r == Lookup(old(cache.entries), EventsKey(), now).value
                && cache.entries == old(cache.entries)
      ensures Lookup(old(cache.entries), EventsKey(), now).None? ==>
                r == EventListing(ListingRows(events))
                && cache.entries == old(cache.entries)[EventsKey() := CacheEntry(r, now + ListingTtl)]
    {
      var key := EventsKey();
      var cached := cache.GetCache(key, now);
      if cached.Some? {
        return cached.value;
      }
      r := EventListing(ListingRows(events));
      cache.SetCache(key, r, ListingTtl, now);
    }

    /**
     * `book_ticket`: refuses a missing event and an event whose counter has
     * reached its capacity; otherwise records a `BOOKED` booking, raises the
     * counter by one and invalidates the listing, analytics, event and the
     * user's history keys. It checks neither the user nor earlier bookings.
     */
    method BookTicket(eventId: int, userId: int) returns (r: Result<int>)
      requires Valid()
      modifies this`events, this`bookings, cache
      ensures Valid()
      ensures eventId !in old(events) ==> r == Err(EventNotFound)
      ensures eventId in old(events) && old(events)[eventId].bookedCount >= old(events)[eventId].capacity ==>
                r == Err(EventFullyBooked)
      ensures eventId in old(events) && old(events)[eventId].bookedCount < old(events)[eventId].capacity ==> r.Ok?
      ensures r.Err? ==>
                events == old(events) && bookings == old(bookings) && cache.entries == old(cache.entries)
      ensures r.Ok? ==>
                && eventId in old(events)
                && old(events)[eventId].bookedCount < old(events)[eventId].capacity
                && r.value == |old(bookings)| + 1
                && bookings == old(bookings) + [Booking(userId, eventId, Booked)]
                && events == WithCount(old(events), eventId, old(events)[eventId].bookedCount + 1)
                && events[eventId].bookedCount <= events[eventId].capacity
                && cache.entries == old(cache.entries) - EventCacheKeys(Some(eventId)) - {UserBookingsKey(userId)}
      ensures WithinCapacity(old(events)) ==> WithinCapacity(events)
    {
      if eventId !in events {
        return Err(EventNotFound);
      }
      var event := events[eventId];
      if event.bookedCount >= event.capacity {
        return Err(EventFullyBooked);
      }
      ghost var events0, bookings0 := events, bookings;
      BookKeepsInvariant(users, events, bookings, waitlist, nextUserId, nextEventId, userId, eventId);
      if WithinCapacity(events) {
        SetCountWithinCapacity(events, eventId, event.bookedCount + 1);
      }
      bookings := bookings + [Booking(userId, eventId, Booked)];
      events := WithCount(events, eventId, event.bookedCount + 1);
      cache.InvalidateEventCaches(Some(eventId));
      cache.InvalidateUserBookingCache(userId);
      assert events == WithCount(events0, eventId, events0[eventId].bookedCount + 1);
      assert bookings == bookings0 + [Booking(userId, eventId, Booked)];
      r := Ok(|bookings|);
    }

    /**
     * `cancel_booking` as intended: refuses an unknown id and a booking
     * already cancelled; otherwise marks it `CANCELLED`, lowers its event's
     * counter by one and invalidates the caches. It does not promote anyone.
     */
    method CancelBooking(bookingId: int) returns (r: Result<Booking>)
      requires Valid()
      modifies this`events, this`bookings, cache
      ensures Valid()
      ensures waitlist == old(waitlist)
      ensures !(1 <= bookingId <= |old(bookings)|) ==> r == Err(BookingNotFound)
      ensures 1 <= bookingId <= |old(bookings)| && old(bookings)[bookingId - 1].status == Cancelled ==>
                r == Err(AlreadyCancelled)
      ensures 1 <= bookingId <= |old(bookings)| && old(bookings)[bookingId - 1].status == Booked ==> r.Ok?
      ensures r.Err? ==>
                events == old(events) && bookings == old(bookings) && cache.entries == old(cache.entries)
      ensures r.Ok? ==>
                && 1 <= bookingId <= |old(bookings)|
                && var b := old(bookings)[bookingId - 1];
                && b.status == Booked
                && r.value == b.(status := Cancelled)
                && bookings == old(bookings)[bookingId - 1 := r.value]
                && b.eventId in old(events)
                && events == WithCount(old(events), b.eventId, old(events)[b.eventId].bookedCount - 1)
                && events[b.eventId].bookedCount >= 0
                && cache.entries == old(cache.entries) - EventCacheKeys(Some(b.eventId)) - {UserBookingsKey(b.userId)}
      ensures WithinCapacity(old(events)) ==> WithinCapacity(events)
    {
      if !(1 <= bookingId <= |bookings|) {
        return Err(BookingNotFound);
      }
      var k := bookingId - 1;
      var booking := bookings[k];
      if booking.status == Cancelled {
        return Err(AlreadyCancelled);
      }
      var cancelled := booking.(status := Cancelled);
      ghost var events0, bookings0 := events, bookings;
      CancelKeepsInvariant(users, events, bookings, waitlist, nextUserId, nextEventId, k);
      var event := events[booking.eventId];
      if WithinCapacity(events) {
        SetCountWithinCapacity(events, booking.eventId, event.bookedCount - 1);
      }
      bookings := bookings[k := cancelled];
      events := WithCount(events, booking.eventId, event.bookedCount - 1);
      cache.InvalidateEventCaches(Some(booking.eventId));
      cache.InvalidateUserBookingCache(booking.userId);
      assert events == WithCount(events0, booking.eventId, events0[booking.eventId].bookedCount - 1);
      assert bookings == bookings0[k := cancelled];
      r := Ok(cancelled);
    }

    /**
     * `cancel_booking` as written: line 128 compares against
     * `BookingStatus.cancelled`, which is not a member of the enum, so every
     * request for an existing booking raises before anything is written.
     */
    method CancelBookingAsWritten(bookingId: int) returns (r: Result<Booking>)
      requires Valid()
      ensures !(1 <= bookingId <= |bookings|) ==> r == Err(BookingNotFound)
      ensures 1 <= bookingId <= |bookings| ==> r == Err(MissingEnumMember)
    {
      if !(1 <= bookingId <= |bookings|) {
        return Err(BookingNotFound);
      }
      var booking := bookings[bookingId - 1];
      match StatusMember("cancelled") {
        case None =>
          // the attribute lookup at line 128 raises before the comparison
          r := Err(MissingEnumMember);
        case Some(cancelled) =>
          assert false;
      }
    }

    // -----------------------------------------------------------------
    // app/routers/admin.py

    /** `create_event`: a new event with no seats taken; invalidates the listing and analytics keys. */
    method CreateEvent(name: string, venue: string, time: int, capacity: int) returns (id: int)
      requires Valid()
      modifies this`events, this`nextEventId, cache
      ensures Valid()
      ensures id == old(nextEventId) && id !in old(events)
      ensures events == old(events)[id := Event(name, venue, time, capacity, 0)]
      ensures nextEventId == old(nextEventId) + 1
      ensures cache.entries == old(cache.entries) - EventCacheKeys(None)
      ensures WithinCapacity(old(events)) && capacity >= 0 ==> WithinCapacity(events)
    {
      id := nextEventId;
      CountBookedUnreferenced(bookings, id);
      events := events[id := Event(name, venue, time, capacity, 0)];
      nextEventId := nextEventId + 1;
      cache.InvalidateEventCaches(None);
    }

    /**
     * `update_event`: overwrites the fields the patch carries, never
     * `booked_count`, and does not compare the new capacity with it.
     */
    method UpdateEvent(eventId: int, patch: EventPatch) returns (r: Result<Event>)
      requires Valid()
      modifies this`events, cache
      ensures Valid()
      ensures eventId !in old(events) ==>
                r == Err(EventNotFound) && events == old(events) && cache.entries == old(cache.entries)
      ensures eventId in old(events) ==>
                && r == Ok(ApplyPatch(old(events)[eventId], patch))
                && events == old(events)[eventId := r.value]
                && r.value.bookedCount == old(events)[eventId].bookedCount
                && cache.entries == old(cache.entries) - EventCacheKeys(Some(eventId))
    {
      if eventId !in events {
        return Err(EventNotFound);
      }
      var event := events[eventId];
      if patch.name.Some? {
        event := event.(name := patch.name.value);
      }
      if patch.venue.Some? {
        event := event.(venue := patch.venue.value);
      }
      if patch.time.Some? {
        event := event.(time := patch.time.value);
      }
      if patch.capacity.Some? {
        event := event.(capacity := patch.capacity.value);
      }
      events := events[eventId := event];
      cache.InvalidateEventCaches(Some(eventId));
      r := Ok(event);
    }

    /** `clear_all_cache`: the pattern "*" clears every key. */
    method ClearAllCache()
      modifies cache
      ensures cache.entries == map[]
    {
      StarMatchesEverything(cache.entries);
      cache.ClearCachePattern("*");
    }

    /** `clear_events_cache`: only the listing and analytics keys. */
    method ClearEventsCache()
      modifies cache
      ensures cache.entries == old(cache.entries) - {EventsKey(), AnalyticsKey()}
    {
      cache.InvalidateEventCaches(None);
      EventCacheKeysCover(0);
    }

    // -----------------------------------------------------------------
    // app/routers/waitlist.py

    /** The `entry.position -= 1` loop over the event's rows behind `position`. */
    method RenumberAfter(eventId: int, position: int)
      modifies this`waitlist
      ensures waitlist == ShiftDown(old(waitlist), eventId, position)
    {
      var i := 0;
      while i < |waitlist|
        invariant 0 <= i <= |waitlist| == |old(waitlist)|
        invariant forall k :: 0 <= k < i ==> waitlist[k] == Shift(old(waitlist)[k], eventId, position)
        invariant forall k :: i <= k < |waitlist| ==> waitlist[k] == old(waitlist)[k]
      {
        if waitlist[i].eventId == eventId && waitlist[i].position > position {
          waitlist := waitlist[i := waitlist[i].(position := waitlist[i].position - 1)];
        }
        i := i + 1;
      }
    }

    /**
     * `move_from_waitlist_to_booking`: when the event exists, its live count
     * of `BOOKED` rows is below capacity and its waitlist is not empty, the
     * head of the queue is promoted (see `PromoteHead`); otherwise nothing changes.
     */
    method MoveFromWaitlistToBooking(eventId: int) returns (moved: bool)
      requires Valid()
      modifies this`events, this`bookings, this`waitlist
      ensures Valid()
      ensures moved <==>
                && eventId in old(events)
                && CountBooked(old(bookings), eventId) < old(events)[eventId].capacity
                && QueueOf(old(waitlist), eventId) != []
      ensures !moved ==> events == old(events) && bookings == old(bookings) && waitlist == old(waitlist)
      ensures moved ==>
                && eventId in old(events)
                && LowestIndex(old(waitlist), eventId).Some?
                && var j := LowestIndex(old(waitlist), eventId).value;
                && var q := QueueOf(old(waitlist), eventId);
                && var active := CountBooked(old(bookings), eventId);
                && q != []
                && old(waitlist)[j].position == 1 && old(waitlist)[j].userId == q[0]
                && bookings == old(bookings) + [Booking(q[0], eventId, Booked)]
                && waitlist == RemoveAt(ShiftDown(old(waitlist), eventId, 1), j)
                && QueueOf(waitlist, eventId) == q[1..]
                && (forall e :: e != eventId ==> QueueOf(waitlist, e) == QueueOf(old(waitlist), e))
                && events == WithCount(old(events), eventId, active + 1)
                && events[eventId].bookedCount <= events[eventId].capacity
      ensures WithinCapacity(old(events)) ==> WithinCapacity(events)
    {
      QueueOfEmpty(waitlist, eventId);
      if eventId !in events {
        return false;
      }
      var activeBookings := CountBooked(bookings, eventId);
      if activeBookings >= events[eventId].capacity {
        return false;
      }
      var first := LowestIndex(waitlist, eventId);
      if first.None? {
        return false;
      }
      PromoteHead(eventId, first.value, activeBookings);
      moved := true;
    }

    /**
     * The successful branch of `move_from_waitlist_to_booking`: row j, the
     * one of lowest position, becomes a `BOOKED` booking, is deleted, the
     * event's other rows move up by one, and the counter becomes the live
     * count plus one.
     */
    method PromoteHead(eventId: int, j: nat, activeBookings: int)
      requires Valid() && eventId in events
      requires LowestIndex(waitlist, eventId) == Some(j)
      requires activeBookings == CountBooked(bookings, eventId) < events[eventId].capacity
      modifies this`events, this`bookings, this`waitlist
      ensures Valid()
      ensures var q := QueueOf(old(waitlist), eventId);
              && q != []
              && old(waitlist)[j].position == 1 && old(waitlist)[j].userId == q[0]
              && bookings == old(bookings) + [Booking(q[0], eventId, Booked)]
              && waitlist == RemoveAt(ShiftDown(old(waitlist), eventId, 1), j)
              && QueueOf(waitlist, eventId) == q[1..]
              && (forall e :: e != eventId ==> QueueOf(waitlist, e) == QueueOf(old(waitlist), e))
              && events == WithCount(old(events), eventId, activeBookings + 1)
              && events[eventId].bookedCount <= events[eventId].capacity
      ensures WithinCapacity(old(events)) ==> WithinCapacity(events)
    {
      var entry := waitlist[j];
      ghost var users0, events0, bookings0, waitlist0 := users, events, bookings, waitlist;
      bookings := bookings + [Booking(entry.userId, eventId, Booked)];
      waitlist := RemoveAt(waitlist, j);
      RenumberAfter(eventId, entry.position);
      events := WithCount(events, eventId, activeBookings + 1);
      PromoteKeepsInvariant(users0, events0, bookings0, waitlist0, nextUserId, nextEventId, eventId);
      assert waitlist == RemoveAt(ShiftDown(waitlist0, eventId, 1), j);
      assert events == WithCount(events0, eventId, CountBooked(bookings0, eventId) + 1);
      assert users == users0;
    }

    /** `join_waitlist`: five guards in order, then one row at position max + 1. */
    method JoinWaitlist(eventId: int, userId: int) returns (r: Result<Entry>)
      requires Valid()
      modifies this`waitlist
      ensures Valid()
      ensures eventId !in events ==> r == Err(EventNotFound)
      ensures eventId in events && userId !in users ==> r == Err(UserNotFound)
      ensures eventId in events && userId in users && HasActiveBooking(bookings, userId, eventId) ==>
                r == Err(AlreadyBooked)
      ensures eventId in events && userId in users && !HasActiveBooking(bookings, userId, eventId)
              && FindEntry(old(waitlist), userId, eventId).Some? ==>
                r == Err(AlreadyOnWaitlist)
      ensures eventId in events && userId in users && !HasActiveBooking(bookings, userId, eventId)
              && FindEntry(old(waitlist), userId, eventId).None?
              && CountBooked(bookings, eventId) < events[eventId].capacity ==>
                r == Err(EventNotFull)
      ensures eventId in events && userId in users && !HasActiveBooking(bookings, userId, eventId)
              && FindEntry(old(waitlist), userId, eventId).None?
              && CountBooked(bookings, eventId) >= events[eventId].capacity ==>
                r.Ok?
      ensures r.Err? ==> waitlist == old(waitlist)
      ensures r.Ok? ==>
                && eventId in events && userId in users && !HasActiveBooking(bookings, userId, eventId)
                && FindEntry(old(waitlist), userId, eventId).None?
                && CountBooked(bookings, eventId) >= events[eventId].capacity
                && r.value == Entry(userId, eventId, |QueueOf(old(waitlist), eventId)| + 1)
                && waitlist == old(waitlist) + [r.value]
                && QueueOf(waitlist, eventId) == QueueOf(old(waitlist), eventId) + [userId]
                && (forall e :: e != eventId ==> QueueOf(waitlist, e) == QueueOf(old(waitlist), e))
                && (forall k :: k in PositionsOf(waitlist, eventId) <==> 1 <= k <= |QueueOf(old(waitlist), eventId)| + 1)
    {
      if eventId !in events {
        return Err(EventNotFound);
      }
      if userId !in users {
        return Err(UserNotFound);
      }
      if HasActiveBooking(bookings, userId, eventId) {
        return Err(AlreadyBooked);
      }
      if FindEntry(waitlist, userId, eventId).Some? {
        return Err(AlreadyOnWaitlist);
      }
      var activeBookings := CountBooked(bookings, eventId);
      if activeBookings < events[eventId].capacity {
        return Err(EventNotFull);
      }
      var position := NextPosition(waitlist, eventId);
      var entry := Entry(userId, eventId, position);
      NextPositionRanked(waitlist, eventId);
      JoinPreservesRanked(waitlist, entry);
      JoinPreservesUnique(waitlist, entry);
      waitlist := waitlist + [entry];
      PositionsContiguous(waitlist, eventId);
      r := Ok(entry);
    }

    /**
     * `leave_waitlist`: removes the user's row; the event's rows behind it
     * move up by one, so the positions stay 1..N and the order is kept.
     */
    method LeaveWaitlist(eventId: int, userId: int) returns (r: Result<()>)
      requires Valid()
      modifies this`waitlist
      ensures Valid()
      ensures FindEntry(old(waitlist), userId, eventId).None? ==>
                r == Err(NotOnWaitlist) && waitlist == old(waitlist)
      ensures FindEntry(old(waitlist), userId, eventId).Some? ==>
                && var j := FindEntry(old(waitlist), userId, eventId).value;
                && var p := old(waitlist)[j].position;
                && var q := QueueOf(old(waitlist), eventId);
                && r == Ok(())
                && waitlist == RemoveAt(ShiftDown(old(waitlist), eventId, p), j)
                && 1 <= p <= |q| && q[p - 1] == userId
                && QueueOf(waitlist, eventId) == q[..p - 1] + q[p..]
                && (forall e :: e != eventId ==> QueueOf(waitlist, e) == QueueOf(old(waitlist), e))
                && FindEntry(waitlist, userId, eventId).None?
                && (forall k :: k in PositionsOf(waitlist, eventId) <==> 1 <= k <= |q| - 1)
    {
      var found := FindEntry(waitlist, userId, eventId);
      if found.None? {
        return Err(NotOnWaitlist);
      }
      var j := found.value;
      var entry := waitlist[j];
      RankOf(waitlist, j);
      RemovePreservesRanked(waitlist, j);
      RemovePreservesUnique(waitlist, j);
      RenumberAfter(eventId, entry.position);
      waitlist := RemoveAt(waitlist, j);
      PositionsContiguous(waitlist, eventId);
      r := Ok(());
    }

    /** `get_event_waitlist`: the event's rows ordered by position, which is their queue order. */
    method GetEventWaitlist(eventId: int) returns (r: Result<seq<Entry>>)
      requires Valid()
      ensures eventId !in events ==> r == Err(EventNotFound)
      ensures eventId in events ==>
                && r.Ok?
                && |r.value| == |QueueOf(waitlist, eventId)|
                && forall i :: 0 <= i < |r.value| ==> r.value[i] == Entry(QueueOf(waitlist, eventId)[i], eventId, i + 1)
    {
      if eventId !in events {
        return Err(EventNotFound);
      }
      EntriesOfRanked(waitlist, eventId);
      r := Ok(EntriesOf(waitlist, eventId));
    }

    /** `get_waitlist_position`: the user's position and the length of the event's waitlist. */
    method GetWaitlistPosition(eventId: int, userId: int) returns (r: Result<PositionInfo>)
      requires Valid()
      ensures FindEntry(waitlist, userId, eventId).None? ==> r == Err(NotOnWaitlist)
      ensures FindEntry(waitlist, userId, eventId).Some? ==>
                && r.Ok?
                && r.value.position == waitlist[FindEntry(waitlist, userId, eventId).value].position
                && r.value.totalInWaitlist == |QueueOf(waitlist, eventId)|
                && 1 <= r.value.position <= r.value.totalInWaitlist
                && QueueOf(waitlist, eventId)[r.value.position - 1] == userId
    {
      var found := FindEntry(waitlist, userId, eventId);
      if found.None? {
        return Err(NotOnWaitlist);
      }
      RankOf(waitlist, found.value);
      r := Ok(PositionInfo(waitlist[found.value].position, |QueueOf(waitlist, eventId)|));
    }

    /**
     * `process_waitlist`: promotes until a promotion fails. It promotes the
     * first min(N, capacity - active) users of the queue, in order, where N is
     * the queue length and active the live `BOOKED` count, and reports that many.
     */
    method ProcessWaitlist(eventId: int) returns (r: Result<nat>)
      requires Valid()
      modifies this`events, this`bookings, this`waitlist
      ensures Valid()
      ensures eventId !in old(events) ==>
                r == Err(EventNotFound)
                && events == old(events) && bookings == old(bookings) && waitlist == old(waitlist)
      ensures eventId in old(events) ==>
                && var q := QueueOf(old(waitlist), eventId);
                && var active := CountBooked(old(bookings), eventId);
                && r == Ok(Promotable(|q|, old(events)[eventId].capacity - active))
                && bookings == old(bookings) + PromotedBookings(q[..r.value], eventId)
                && QueueOf(waitlist, eventId) == q[r.value..]
                && (forall e :: e != eventId ==> QueueOf(waitlist, e) == QueueOf(old(waitlist), e))
                && events == WithCount(old(events), eventId, active + r.value)
      ensures WithinCapacity(old(events)) ==> WithinCapacity(events)
    {
      if eventId !in events {
        return Err(EventNotFound);
      }
      ghost var q := QueueOf(waitlist, eventId);
      ghost var active := CountBooked(bookings, eventId);
      ghost var capacity := events[eventId].capacity;
      var movedCount := 0;
      while true
        invariant Valid()
        invariant movedCount <= |q|
        invariant movedCount > 0 ==> active + movedCount <= capacity
        invariant bookings == old(bookings) + PromotedBookings(q[..movedCount], eventId)
        invariant QueueOf(waitlist, eventId) == q[movedCount..]
        invariant forall e :: e != eventId ==> QueueOf(waitlist, e) == QueueOf(old(waitlist), e)
        invariant events == WithCount(old(events), eventId, active + movedCount)
        decreases |q| - movedCount
      {
        var moved := WaitlistRound(eventId, old(events), old(bookings), old(waitlist), q, active, movedCount);
        if !moved {
          break;
        }
        movedCount := movedCount + 1;
      }
      ProcessOutcome(old(events), old(bookings), |q|, eventId, movedCount);
      r := Ok(movedCount);
    }

    /** One round of the loop in `process_waitlist`, after `movedCount` users have been promoted. */
    method WaitlistRound(eventId: int, ghost events0: map<int, Event>, ghost bookings0: seq<Booking>,
                         ghost waitlist0: seq<Entry>, ghost q: seq<int>, ghost active: int, movedCount: nat)
      returns (moved: bool)
      requires Valid() && eventId in events0 && movedCount <= |q|
      requires movedCount > 0 ==> active + movedCount <= events0[eventId].capacity
      requires bookings == bookings0 + PromotedBookings(q[..movedCount], eventId)
      requires QueueOf(waitlist, eventId) == q[movedCount..]
      requires forall e :: e != eventId ==> QueueOf(waitlist, e) == QueueOf(waitlist0, e)
      requires events == WithCount(events0, eventId, active + movedCount)
      modifies this`events, this`bookings, this`waitlist
      ensures Valid()
      ensures moved ==>
                && movedCount < |q|
                && active + movedCount + 1 <= events0[eventId].capacity
                && bookings == bookings0 + PromotedBookings(q[..movedCount + 1], eventId)
                && QueueOf(waitlist, eventId) == q[movedCount + 1..]
                && (forall e :: e != eventId ==> QueueOf(waitlist, e) == QueueOf(waitlist0, e))
                && events == WithCount(events0, eventId, active + (movedCount + 1))
      ensures !moved ==>
                && bookings == bookings0 + PromotedBookings(q[..movedCount], eventId)
                && QueueOf(waitlist, eventId) == q[movedCount..]
                && (forall e :: e != eventId ==> QueueOf(waitlist, e) == QueueOf(waitlist0, e))
                && events == WithCount(events0, eventId, active + movedCount)
      ensures !moved ==> movedCount == |q| || active + movedCount >= events0[eventId].capacity
    {
      ghost var bookings1, events1, queue1 := bookings, events, QueueOf(waitlist, eventId);
      moved := MoveFromWaitlistToBooking(eventId);
      if moved {
        PromotionStep(events0, bookings0, q, active, movedCount, eventId,
                      events1, bookings1, queue1, events, bookings, QueueOf(waitlist, eventId));
      } else {
        assert events1[eventId].bookedCount == CountBooked(bookings1, eventId);
      }
    }
  }

  /** One round of `process_waitlist`: the next user of the original queue is promoted. */
  lemma PromotionStep(events: map<int, Event>, bookings: seq<Booking>, q: seq<int>, active: int, moved: nat, eventId: int,
                      events0: map<int, Event>, bookings0: seq<Booking>, queue0: seq<int>,
                      events1: map<int, Event>, bookings1: seq<Booking>, queue1: seq<int>)
    requires eventId in events && moved < |q|
    requires bookings0 == bookings + PromotedBookings(q[..moved], eventId)
    requires queue0 == q[moved..]
    requires events0 == WithCount(events, eventId, active + moved)
    requires CountBooked(bookings0, eventId) == active + moved
    requires queue0 != [] && bookings1 == bookings0 + [Booking(queue0[0], eventId, Booked)]
    requires queue1 == queue0[1..]
    requires events1 == WithCount(events0, eventId, CountBooked(bookings0, eventId) + 1)
    ensures bookings1 == bookings + PromotedBookings(q[..moved + 1], eventId)
    ensures queue1 == q[moved + 1..]
    ensures events1 == WithCount(events, eventId, active + (moved + 1))
  {
    PromotedBookingsSnoc(q, moved, eventId);
    assert q[moved..][1..] == q[moved + 1..];
  }

  /** When the loop of `process_waitlist` stops, it has promoted exactly min(N, free seats) users. */
  lemma ProcessOutcome(events: map<int, Event>, bookings: seq<Booking>, n: nat, eventId: int, moved: nat)
    requires eventId in events && events[eventId].bookedCount == CountBooked(bookings, eventId)
    requires moved <= n
    requires moved > 0 ==> CountBooked(bookings, eventId) + moved <= events[eventId].capacity
    requires moved == n || CountBooked(bookings, eventId) + moved >= events[eventId].capacity
    ensures moved == Promotable(n, events[eventId].capacity - CountBooked(bookings, eventId))
    ensures WithinCapacity(events) ==>
              WithinCapacity(WithCount(events, eventId, CountBooked(bookings, eventId) + moved))
  {
    PromotableStops(n, events[eventId].capacity - CountBooked(bookings, eventId), moved);
    if WithinCapacity(events) {
      SetCountWithinCapacity(events, eventId, CountBooked(bookings, eventId) + moved);
    }
  }

  /** How many of n waiting users fit into `free` seats: min(n, free), and none when free is negative. */
  function Promotable(n: nat, free: int): (r: nat)
    ensures r <= n
    ensures free <= 0 ==> r == 0
    ensures free >= n ==> r == n
    ensures 0 <= free <= n ==> r == free
  {
    if free <= 0 then 0 else if free < n then free else n
  }

  /** The loop of `process_waitlist` stops after exactly min(n, free) promotions. */
  lemma PromotableStops(n: nat, free: int, moved: nat)
    requires moved <= n && (moved > 0 ==> moved <= free)
    requires moved == n || moved >= free
    ensures moved == Promotable(n, free)
  {
  }

  /** The status lookup at users.py lines 128 and 131 names a member the enum does not have. */
  lemma CancelledIsNotAMember()
    ensures StatusMember("cancelled") == None
    ensures StatusMember("CANCELLED") == Some(Cancelled)
  {
  }
}
