/**
 * The tables of the database session as values, and the invariant the
 * routers keep over them: ids below their counters, one account per email,
 * every `booked_count` equal to its event's live count of `BOOKED` rows,
 * every booking pointing at an event, and a dense FIFO waitlist.
 */
module Tables {
  import opened Wrappers
  import opened Models
  import opened Ledger
  import opened Queue

  /** Some account already uses this email. */
  predicate EmailTaken(users: map<int, User>, email: string)
  {
    exists id :: id in users && users[id].email == email
  }

  /** No two accounts share an email. */
  ghost predicate EmailsUnique(users: map<int, User>)
  {
    forall a, b :: a in users && b in users && a != b ==> users[a].email != users[b].email
  }

  /** The invariant of a store's tables, stated on their values. */
  ghost predicate StoreInvariant(users: map<int, User>, events: map<int, Event>, bookings: seq<Booking>,
                                 waitlist: seq<Entry>, nextUserId: int, nextEventId: int)
  {
    && 1 <= nextUserId && 1 <= nextEventId
    && (forall id :: id in users ==> 1 <= id < nextUserId)
    && (forall id :: id in events ==> 1 <= id < nextEventId)
    && EmailsUnique(users)
    && CountersMatch(events, bookings)
    && BookingsReferenceEvents(events, bookings)
    && Ranked(waitlist)
    && UniqueEntries(waitlist)
  }

  /**
   * One promotion on the tables' values: the row of lowest position is the
   * head of the event's queue at position 1; after it becomes a `BOOKED`
   * booking, is deleted and the event's other rows move up, the invariant
   * holds, the queue has lost exactly its head and other queues are as before.
   */
  lemma PromoteKeepsInvariant(users: map<int, User>, events: map<int, Event>, bookings: seq<Booking>,
                              waitlist: seq<Entry>, nextUserId: int, nextEventId: int, eventId: int)
    requires StoreInvariant(users, events, bookings, waitlist, nextUserId, nextEventId)
    requires eventId in events && LowestIndex(waitlist, eventId).Some?
    requires CountBooked(bookings, eventId) < events[eventId].capacity
    ensures var j := LowestIndex(waitlist, eventId).value;
            var q := QueueOf(waitlist, eventId);
            var events' := WithCount(events, eventId, CountBooked(bookings, eventId) + 1);
            var bookings' := bookings + [Booking(waitlist[j].userId, eventId, Booked)];
            var waitlist' := RemoveAt(ShiftDown(waitlist, eventId, 1), j);
            && q != []
            && waitlist[j].position == 1 && waitlist[j].userId == q[0]
            && ShiftDown(RemoveAt(waitlist, j), eventId, waitlist[j].position) == waitlist'
            && StoreInvariant(users, events', bookings', waitlist', nextUserId, nextEventId)
            && QueueOf(waitlist', eventId) == q[1..]
            && (forall e :: e != eventId ==> QueueOf(waitlist', e) == QueueOf(waitlist, e))
            && events'[eventId].bookedCount <= events'[eventId].capacity
            && (WithinCapacity(events) ==> WithinCapacity(events'))
  {
    var j := LowestIndex(waitlist, eventId).value;
    PopHead(waitlist, eventId);
    BookKeepsLedger(events, bookings, waitlist[j].userId, eventId);
    if WithinCapacity(events) {
      SetCountWithinCapacity(events, eventId, CountBooked(bookings, eventId) + 1);
    }
  }

  /** `book_ticket` on the tables' values: one more `BOOKED` row and its event's counter raised by one. */
  lemma BookKeepsInvariant(users: map<int, User>, events: map<int, Event>, bookings: seq<Booking>,
                           waitlist: seq<Entry>, nextUserId: int, nextEventId: int, userId: int, eventId: int)
    requires StoreInvariant(users, events, bookings, waitlist, nextUserId, nextEventId)
    requires eventId in events
    ensures var events' := WithCount(events, eventId, events[eventId].bookedCount + 1);
            StoreInvariant(users, events', bookings + [Booking(userId, eventId, Booked)], waitlist, nextUserId, nextEventId)
  {
    BookKeepsLedger(events, bookings, userId, eventId);
  }

  /** `cancel_booking` on the tables' values: one `BOOKED` row flipped and its event's counter lowered by one. */
  lemma CancelKeepsInvariant(users: map<int, User>, events: map<int, Event>, bookings: seq<Booking>,
                             waitlist: seq<Entry>, nextUserId: int, nextEventId: int, k: nat)
    requires StoreInvariant(users, events, bookings, waitlist, nextUserId, nextEventId)
    requires k < |bookings| && bookings[k].status == Booked
    ensures var b := bookings[k];
            && b.eventId in events
            && events[b.eventId].bookedCount >= 1
            && StoreInvariant(users, WithCount(events, b.eventId, events[b.eventId].bookedCount - 1),
                              bookings[k := b.(status := Cancelled)], waitlist, nextUserId, nextEventId)
  {
    var b := bookings[k];
    var bs' := bookings[k := b.(status := Cancelled)];
    forall id | id in events
      ensures CountBooked(bs', id) == CountBooked(bookings, id) - (if id == b.eventId then 1 else 0)
    {
      CountBookedAfterCancel(bookings, k, id);
    }
  }
}
