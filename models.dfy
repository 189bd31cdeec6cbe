/**
 * The records of the booking backend (users, events, bookings, payments),
 * their status and role enumerations, the store that holds them, and the
 * cascading deletes the relations declare.
 */
module Models {

  type UserId = nat
  type EventId = nat
  type BookingId = nat

  /** The two roles a user account can hold; new accounts are plain users. */
  datatype Role = RegularUser | EventManager

  const DEFAULT_ROLE: Role := RegularUser

  /** The authenticated caller of an operation: its identity and its role. */
  datatype User = User(id: UserId, role: Role)

  /** Default of both ticket counters of an event. */
  const DEFAULT_TICKETS: nat := 100

  /**
   * An event's ticket inventory and its owner. Title, description, date,
   * time, location, category and payment options are not modelled.
   */
  datatype Event = Event(total: nat, available: nat, createdBy: UserId)

  datatype BookingStatus = Booked | Cancelled

  /** A reservation of `tickets` tickets of `event` by `user`. */
  datatype Booking = Booking(user: UserId, event: EventId, tickets: nat, status: BookingStatus)

  datatype PaymentStatus = Completed | Reverted

  /** A simulated payment; `amount` is in cents and is never computed with. */
  datatype Payment = Payment(paymentMethod: string, amount: int, status: PaymentStatus)

  /**
   * The persistent store. Payments are keyed by the id of the booking they
   * belong to, so a booking has at most one payment. Ids are handed out in
   * increasing order from the `next*` counters.
   */
  datatype Store = Store(
    events: map<EventId, Event>,
    bookings: map<BookingId, Booking>,
    payments: map<BookingId, Payment>,
    nextEventId: EventId,
    nextBookingId: BookingId)

  const EMPTY_STORE: Store := Store(map[], map[], map[], 0, 0)

  /** The typed outcomes the operations report instead of HTTP responses. */
  datatype Error =
    | NotFound
    | Forbidden
    | InsufficientTickets
    | AlreadyCancelled
    | BookingCancelled
    | DuplicatePayment
    | BookingDoesNotExist
    | NoPayment

  datatype Result<T> = Success(value: T) | Failure(error: Error)

  datatype Outcome = Pass | Fail(error: Error)

  datatype Option<T> = None | Some(value: T)

  /**
   * An atomic step from `before` to `after` reporting `outcome` carries out
   * `r`: the new store on success, no change at all on an error.
   */
  predicate Applied(r: Result<Store>, before: Store, after: Store, outcome: Outcome)
  {
    match r
    case Success(next) => outcome == Pass && after == next
    case Failure(e) => outcome == Fail(e) && after == before
  }

  /** Ids below the counters, and every reference pointing at a live record. */
  predicate WellFormed(s: Store)
  {
    && (forall e :: e in s.events ==> e < s.nextEventId)
    && (forall k :: k in s.bookings ==> k < s.nextBookingId && s.bookings[k].event in s.events)
    && (forall k :: k in s.payments ==> k in s.bookings)
  }

  /**
   * A payment is completed exactly while its booking is booked: payments are
   * only made for booked bookings, and every path that cancels a booking
   * reverts its payment and vice versa.
   */
  predicate PaymentsConsistent(s: Store)
    requires WellFormed(s)
  {
    forall k :: k in s.payments ==> (s.payments[k].status == Completed <==> s.bookings[k].status == Booked)
  }

  predicate Valid(s: Store)
  {
    WellFormed(s) && PaymentsConsistent(s)
  }

  /**
   * Deleting an event deletes its bookings, and deleting a booking deletes
   * its payment.
   */
  function DeleteEvent(s: Store, eid: EventId): (r: Store)
    requires Valid(s)
    ensures Valid(r)
    ensures r.events.Keys == s.events.Keys - {eid}
    ensures forall e :: e in r.events ==> r.events[e] == s.events[e]
    ensures forall k :: k in r.bookings <==> k in s.bookings && s.bookings[k].event != eid
    ensures forall k :: k in r.bookings ==> r.bookings[k] == s.bookings[k]
    ensures forall k :: k in r.payments <==> k in s.payments && s.bookings[k].event != eid
    ensures forall k :: k in r.payments ==> r.payments[k] == s.payments[k]
    ensures r.nextEventId == s.nextEventId && r.nextBookingId == s.nextBookingId
  {
    var bookings := map k | k in s.bookings && s.bookings[k].event != eid :: s.bookings[k];
    var payments := map k | k in s.payments && k in bookings :: s.payments[k];
    s.(events := s.events - {eid}, bookings := bookings, payments := payments)
  }
}
