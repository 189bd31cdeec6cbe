/**
 * The serializers' checks and the writes they perform: event creation with
 * its read-only fields, the availability check and ticket reservation of a
 * booking, the payment checks and creation, and the payment reversal.
 */
module Serializers {
  import opened Models
  import opened Ledger

  /**
   * The fields a client sends to create an event. `availableTickets` and
   * `createdBy` are read-only: whatever the client sends there is dropped.
   */
  datatype EventRequest = EventRequest(
    totalTickets: Option<nat>,
    availableTickets: Option<nat>,
    createdBy: Option<UserId>)

  /** Saves a new event owned by `owner`; both counters not given default to 100. */
  function SaveEvent(s: Store, owner: UserId, req: EventRequest): (r: Store)
    requires Valid(s)
    ensures Valid(r)
    ensures r.events.Keys == s.events.Keys + {s.nextEventId} && s.nextEventId !in s.events
    ensures r.events[s.nextEventId].available == DEFAULT_TICKETS
    ensures r.events[s.nextEventId].createdBy == owner
    ensures r.events[s.nextEventId].total == match req.totalTickets case Some(t) => t case None => DEFAULT_TICKETS
    ensures forall e :: e in s.events ==> r.events[e] == s.events[e]
    ensures r.bookings == s.bookings && r.payments == s.payments
    ensures r.nextEventId == s.nextEventId + 1 && r.nextBookingId == s.nextBookingId
  {
    var total := match req.totalTickets case Some(t) => t case None => DEFAULT_TICKETS;
    var event := Event(total, DEFAULT_TICKETS, owner);
    s.(events := s.events[s.nextEventId := event], nextEventId := s.nextEventId + 1)
  }

  /** A booking of `n` tickets is refused exactly when fewer than `n` are available. */
  function ValidateBooking(event: Event, n: nat): (r: Outcome)
    ensures r.Pass? <==> n <= event.available
    ensures r.Fail? ==> r.error == InsufficientTickets
  {
    if event.available < n then Fail(InsufficientTickets) else Pass
  }

  /** Takes `n` tickets from the event and records a new booked booking for `user`. */
  function CreateBooking(s: Store, user: UserId, eid: EventId, n: nat): (r: Store)
    requires Valid(s) && eid in s.events && n <= s.events[eid].available
    ensures Valid(r)
    ensures r.events.Keys == s.events.Keys
    ensures r.events[eid] == s.events[eid].(available := s.events[eid].available - n)
    ensures forall e :: e in s.events && e != eid ==> r.events[e] == s.events[e]
    ensures r.bookings.Keys == s.bookings.Keys + {s.nextBookingId} && s.nextBookingId !in s.bookings
    ensures r.bookings[s.nextBookingId] == Booking(user, eid, n, Booked)
    ensures forall k :: k in s.bookings ==> r.bookings[k] == s.bookings[k]
    ensures r.payments == s.payments
    ensures r.nextEventId == s.nextEventId && r.nextBookingId == s.nextBookingId + 1
  {
    var event := s.events[eid];
    var events := s.events[eid := event.(available := event.available - n)];
    var bookings := s.bookings[s.nextBookingId := Booking(user, eid, n, Booked)];
    s.(events := events, bookings := bookings, nextBookingId := s.nextBookingId + 1)
  }

  /**
   * A payment is refused for a booking that already has one, whatever that
   * payment's status or the booking's, and for a cancelled booking. The
   * `booking` field stands for a one-to-one relation, so the field itself
   * carries a uniqueness check, and field checks run before the
   * serializer's own `validate`: an existing payment is reported as a
   * duplicate before the booking's status is looked at. The duplicate test
   * inside `validate` can then never fire.
   */
  function ValidatePayment(s: Store, bid: BookingId): (r: Outcome)
    requires bid in s.bookings
    ensures r.Pass? <==> s.bookings[bid].status == Booked && bid !in s.payments
    ensures bid in s.payments ==> r == Fail(DuplicatePayment)
    ensures bid !in s.payments && s.bookings[bid].status == Cancelled ==> r == Fail(BookingCancelled)
  {
    if bid in s.payments then Fail(DuplicatePayment)
    else if s.bookings[bid].status.Cancelled? then Fail(BookingCancelled)
    else Pass
  }

  /** Records a completed payment for booking `bid` and touches nothing else. */
  function CreatePayment(s: Store, bid: BookingId, paymentMethod: string, amount: int): (r: Store)
    requires Valid(s) && bid in s.bookings && ValidatePayment(s, bid).Pass?
    ensures Valid(r)
    ensures r.payments.Keys == s.payments.Keys + {bid}
    ensures r.payments[bid] == Payment(paymentMethod, amount, Completed)
    ensures forall k :: k in s.payments ==> r.payments[k] == s.payments[k]
    ensures r.events == s.events && r.bookings == s.bookings
    ensures r.nextEventId == s.nextEventId && r.nextBookingId == s.nextBookingId
  {
    s.(payments := s.payments[bid := Payment(paymentMethod, amount, Completed)])
  }

  /** Looks the booking up; an unknown id is refused. */
  function ValidateRevertBookingId(s: Store, bid: BookingId): (r: Result<Booking>)
    ensures r.Success? <==> bid in s.bookings
    ensures r.Success? ==> r.value == s.bookings[bid]
    ensures r.Failure? ==> r.error == BookingDoesNotExist
  {
    if bid in s.bookings then Success(s.bookings[bid]) else Failure(BookingDoesNotExist)
  }

  /**
   * Reverts the booking's payment, cancels the booking and gives its tickets
   * back to the event. Neither the booking's status nor its owner is
   * checked; the reason a client gives is not used.
   */
  function RevertPayment(s: Store, bid: BookingId): (r: Result<Store>)
    requires Valid(s)
    ensures r.Success? <==> bid in s.bookings && bid in s.payments
    ensures bid !in s.bookings ==> r == Failure(BookingDoesNotExist)
    ensures bid in s.bookings && bid !in s.payments ==> r == Failure(NoPayment)
    ensures r.Success? ==> Valid(r.value)
  {
    match ValidateRevertBookingId(s, bid)
    case Failure(e) => Failure(e)
    case Success(booking) =>
      if bid !in s.payments then Failure(NoPayment)
      else
        var payments := s.payments[bid := s.payments[bid].(status := Reverted)];
        var bookings := s.bookings[bid := booking.(status := Cancelled)];
        Success(s.(payments := payments, bookings := bookings,
                   events := Release(s.events, booking.event, booking.tickets)))
  }
}
