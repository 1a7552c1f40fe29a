/**
 * The records of the persistence layer (the model classes under app/models and app/schemas.py),
 * reduced to the fields the routers read or write, and the outcomes the
 * handlers report. Each error variant stands for one distinct HTTP detail.
 */
module Models {
  import opened Wrappers

  datatype BookingStatus = Booked | Cancelled

  /**
   * Attribute lookup on the `BookingStatus` enum: its members are named
   * `BOOKED` and `CANCELLED`; any other name is not a member.
   */
  function StatusMember(name: string): (r: Option<BookingStatus>)
    ensures r.Some? <==> name == "BOOKED" || name == "CANCELLED"
  {
    if name == "BOOKED" then Some(Booked)
    else if name == "CANCELLED" then Some(Cancelled)
    else None
  }

  datatype Role = RegularUser | Admin

  /** The role `create_user` stores: administrator exactly for the string "admin", a plain user otherwise. */
  function RoleOf(role: string): (r: Role)
    ensures r == Admin <==> role == "admin"
  {
    if role == "admin" then Admin else RegularUser
  }

  datatype User = User(name: string, email: string, password: string, role: Role)

  /** An event; `time` is an opaque timestamp. */
  datatype Event = Event(name: string, venue: string, time: int, capacity: int, bookedCount: int)

  datatype Booking = Booking(userId: int, eventId: int, status: BookingStatus)

  /** A waitlist row; `joined_at` is not modelled. */
  datatype Entry = Entry(userId: int, eventId: int, position: int)

  /** The `EventUpdate` body of `update_event`: every field optional. */
  datatype EventPatch = EventPatch(name: Option<string>, venue: Option<string>, time: Option<int>, capacity: Option<int>)

  datatype Error =
    | EventNotFound           // "Event not found"
    | UserNotFound            // "User not found"
    | AlreadyBooked           // "User already has a booking for this event"
    | AlreadyOnWaitlist       // "User is already on the waitlist for this event"
    | EventNotFull            // "Event is not full. Please book directly ..."
    | NotOnWaitlist           // "User is not on the waitlist for this event"
    | EventFullyBooked        // "Event fully booked"
    | BookingNotFound         // "Booking not found"
    | AlreadyCancelled        // "Already cancelled"
    | EmailAlreadyRegistered  // "Email already registered"
    | MissingEnumMember       // AttributeError: the enum has no such member

  datatype Result<T> = Ok(value: T) | Err(error: Error)
}
