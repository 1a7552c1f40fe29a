/**
 * The booking ledger as values: the live count of `BOOKED` rows that the
 * waitlist router recomputes, the `booked_count` counter that the users
 * router maintains, and the agreement between the two; the partial patch of
 * `update_event`; the rows of the `get_events` listing.
 */
module Ledger {
  import opened Wrappers
  import opened Models

  /** Number of `BOOKED` bookings of an event: the query at waitlist.py lines 28-31. */
  function CountBooked(bs: seq<Booking>, eventId: int): nat
  {
    if bs == [] then 0
    else CountBooked(bs[..|bs| - 1], eventId)
         + (if bs[|bs| - 1].eventId == eventId && bs[|bs| - 1].status == Booked then 1 else 0)
  }

  /** The user holds a `BOOKED` booking for the event. */
  predicate HasActiveBooking(bs: seq<Booking>, userId: int, eventId: int)
  {
    exists i :: 0 <= i < |bs| && bs[i] == Booking(userId, eventId, Booked)
  }

  /** The bookings created for the given users, in order, when they leave the waitlist. */
  function PromotedBookings(users: seq<int>, eventId: int): (r: seq<Booking>)
    ensures |r| == |users|
    ensures forall i :: 0 <= i < |r| ==> r[i] == Booking(users[i], eventId, Booked)
  {
    seq(|users|, i requires 0 <= i < |users| => Booking(users[i], eventId, Booked))
  }

  /** Every event's counter equals its live count of `BOOKED` rows. */
  ghost predicate CountersMatch(events: map<int, Event>, bs: seq<Booking>)
  {
    forall id :: id in events ==> events[id].bookedCount == CountBooked(bs, id)
  }

  ghost predicate BookingsReferenceEvents(events: map<int, Event>, bs: seq<Booking>)
  {
    forall i :: 0 <= i < |bs| ==> bs[i].eventId in events
  }

  lemma CountBookedConcat(a: seq<Booking>, b: seq<Booking>, eventId: int)
    ensures CountBooked(a + b, eventId) == CountBooked(a, eventId) + CountBooked(b, eventId)
    decreases |b|
  {
    if b != [] {
      assert (a + b)[..|a + b| - 1] == a + b[..|b| - 1];
      CountBookedConcat(a, b[..|b| - 1], eventId);
    } else {
      assert a + b == a;
    }
  }

  /** Appending one booking changes only its own event's live count, by one when it is `BOOKED`. */
  lemma CountBookedAppend(bs: seq<Booking>, b: Booking, eventId: int)
    ensures CountBooked(bs + [b], eventId)
            == CountBooked(bs, eventId) + (if b.eventId == eventId && b.status == Booked then 1 else 0)
  {
    assert (bs + [b])[..|bs|] == bs;
  }

  /** An event no booking refers to has no `BOOKED` booking: a new event starts at zero. */
  lemma {:induction false} CountBookedUnreferenced(bs: seq<Booking>, eventId: int)
    requires forall i :: 0 <= i < |bs| ==> bs[i].eventId != eventId
    ensures CountBooked(bs, eventId) == 0
    decreases |bs|
  {
    if bs != [] {
      CountBookedUnreferenced(bs[..|bs| - 1], eventId);
    }
  }

  /** Cancelling one `BOOKED` booking lowers its event's live count by exactly one. */
  lemma {:induction false} CountBookedAfterCancel(bs: seq<Booking>, k: nat, eventId: int)
    requires k < |bs| && bs[k].status == Booked
    ensures CountBooked(bs[k := bs[k].(status := Cancelled)], eventId)
            == CountBooked(bs, eventId) - (if bs[k].eventId == eventId then 1 else 0)
    decreases |bs|
  {
    var bs' := bs[k := bs[k].(status := Cancelled)];
    var n := |bs| - 1;
    if k == n {
      assert bs'[..n] == bs[..n];
    } else {
      assert bs'[..n] == bs[..n][k := bs[k].(status := Cancelled)];
      CountBookedAfterCancel(bs[..n], k, eventId);
    }
  }

  /** Promoting a run of users adds exactly that many to the event's live count, none to others. */
  lemma {:induction false} CountBookedAfterPromotions(bs: seq<Booking>, users: seq<int>, eventId: int, other: int)
    ensures CountBooked(bs + PromotedBookings(users, eventId), eventId) == CountBooked(bs, eventId) + |users|
    ensures other != eventId ==>
              CountBooked(bs + PromotedBookings(users, eventId), other) == CountBooked(bs, other)
    decreases |users|
  {
    if users != [] {
      var n := |users| - 1;
      var p := PromotedBookings(users, eventId);
      assert p == PromotedBookings(users[..n], eventId) + [Booking(users[n], eventId, Booked)];
      assert bs + p == (bs + PromotedBookings(users[..n], eventId)) + [Booking(users[n], eventId, Booked)];
      CountBookedAfterPromotions(bs, users[..n], eventId, other);
      CountBookedAppend(bs + PromotedBookings(users[..n], eventId), Booking(users[n], eventId, Booked), eventId);
      CountBookedAppend(bs + PromotedBookings(users[..n], eventId), Booking(users[n], eventId, Booked), other);
    } else {
      assert bs + PromotedBookings(users, eventId) == bs;
    }
  }

  /** Promoting users one at a time builds the same run as promoting them together. */
  lemma PromotedBookingsSnoc(users: seq<int>, n: nat, eventId: int)
    requires n < |users|
    ensures PromotedBookings(users[..n + 1], eventId)
            == PromotedBookings(users[..n], eventId) + [Booking(users[n], eventId, Booked)]
  {
  }

  /**
   * A new `BOOKED` booking for an existing event, with that event's counter
   * set to its old live count plus one, keeps every counter in step and every
   * booking pointing at an event.
   */
  lemma BookKeepsLedger(events: map<int, Event>, bs: seq<Booking>, userId: int, eventId: int)
    requires CountersMatch(events, bs) && BookingsReferenceEvents(events, bs) && eventId in events
    ensures var events' := WithCount(events, eventId, CountBooked(bs, eventId) + 1);
            var bs' := bs + [Booking(userId, eventId, Booked)];
            && CountersMatch(events', bs')
            && BookingsReferenceEvents(events', bs')
            && CountBooked(bs', eventId) == CountBooked(bs, eventId) + 1
  {
    var b := Booking(userId, eventId, Booked);
    forall id | id in events
      ensures CountBooked(bs + [b], id) == CountBooked(bs, id) + (if id == eventId then 1 else 0)
    {
      CountBookedAppend(bs, b, id);
    }
  }

  /** The events table with one event's `booked_count` set to `count`. */
  function WithCount(events: map<int, Event>, eventId: int, count: int): map<int, Event>
    requires eventId in events
  {
    events[eventId := events[eventId].(bookedCount := count)]
  }

  /** No event holds more `BOOKED` seats than its capacity. */
  ghost predicate WithinCapacity(events: map<int, Event>)
  {
    forall id :: id in events ==> events[id].bookedCount <= events[id].capacity
  }

  /** Setting one counter to a value within that event's capacity keeps every event within capacity. */
  lemma SetCountWithinCapacity(events: map<int, Event>, eventId: int, count: int)
    requires WithinCapacity(events) && eventId in events
    requires count <= events[eventId].capacity || count <= events[eventId].bookedCount
    ensures WithinCapacity(WithCount(events, eventId, count))
  {
  }

  /** `update_event` lines 56-63: each field is overwritten only when the patch carries a value. */
  function ApplyPatch(e: Event, p: EventPatch): Event
  {
    Event(
      if p.name.Some? then p.name.value else e.name,
      if p.venue.Some? then p.venue.value else e.venue,
      if p.time.Some? then p.time.value else e.time,
      if p.capacity.Some? then p.capacity.value else e.capacity,
      e.bookedCount)
  }

  /** The patch never touches `booked_count`, an empty patch changes nothing, and patching twice is patching once. */
  lemma PatchProperties(e: Event, p: EventPatch)
    ensures ApplyPatch(e, p).bookedCount == e.bookedCount
    ensures ApplyPatch(e, EventPatch(None, None, None, None)) == e
    ensures ApplyPatch(ApplyPatch(e, p), p) == ApplyPatch(e, p)
    ensures p.capacity.Some? ==> ApplyPatch(e, p).capacity == p.capacity.value
    ensures p.capacity.None? ==> ApplyPatch(e, p).capacity == e.capacity
  {
  }

  /**
   * `update_event` writes the capacity without comparing it to `booked_count`:
   * an event within its capacity can be patched into one that is over it.
   */
  lemma PatchCanOverbook()
    ensures exists e: Event, p: EventPatch ::
              e.bookedCount <= e.capacity && ApplyPatch(e, p).bookedCount > ApplyPatch(e, p).capacity
  {
    var e := Event("concert", "hall", 0, 5, 5);
    var p := EventPatch(None, None, None, Some(2));
    assert ApplyPatch(e, p).bookedCount > ApplyPatch(e, p).capacity;
  }

  /** One row of the `get_events` listing. */
  datatype EventRow = EventRow(id: int, name: string, venue: string, time: int,
                               capacity: int, bookedCount: int, availableSpots: int)

  /** The listing of users.py lines 74-85, keyed by event id. */
  function ListingRows(events: map<int, Event>): map<int, EventRow>
  {
    map id | id in events ::
      EventRow(id, events[id].name, events[id].venue, events[id].time,
               events[id].capacity, events[id].bookedCount,
               events[id].capacity - events[id].bookedCount)
  }

  /**
   * When the counters agree with the ledger the listing shows one row per
   * event and its free spots are capacity minus the live `BOOKED` count;
   * they are never negative while the counter is within capacity.
   */
  lemma ListingMatchesLedger(events: map<int, Event>, bs: seq<Booking>, id: int)
    requires CountersMatch(events, bs)
    ensures ListingRows(events).Keys == events.Keys
    ensures id in events ==>
              && ListingRows(events)[id].availableSpots == events[id].capacity - CountBooked(bs, id)
              && (ListingRows(events)[id].availableSpots >= 0 <==> CountBooked(bs, id) <= events[id].capacity)
  {
  }
}
