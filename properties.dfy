/**
 * What the operations promise about each other and about the ticket
 * accounting: the slack of every surviving event (available tickets plus
 * tickets held by booked bookings) is kept by every operation except a
 * payment reversal of an already cancelled booking, which gives the
 * booking's tickets back a second time.
 */
module Properties {
  import opened Models
  import opened Ledger
  import Permissions
  import Serializers
  import opened Views

  // ---------------------------------------------------------------------
  // Booking tickets

  /** A successful booking takes exactly `n` tickets and adds one booked booking owned by the caller. */
  lemma BookTicketReserves(s: Store, caller: UserId, eid: EventId, n: nat)
    requires Valid(s) && eid in s.events && n <= s.events[eid].available
    ensures BookTicket(s, caller, eid, n).Success?
    ensures var r := BookTicket(s, caller, eid, n).value;
      && r.events.Keys == s.events.Keys
      && r.events[eid] == s.events[eid].(available := s.events[eid].available - n)
      && (forall e :: e in s.events && e != eid ==> r.events[e] == s.events[e])
      && r.bookings.Keys == s.bookings.Keys + {s.nextBookingId}
      && r.bookings[s.nextBookingId] == Booking(caller, eid, n, Booked)
      && (forall k :: k in s.bookings ==> r.bookings[k] == s.bookings[k])
      && r.payments == s.payments
      && r.nextEventId == s.nextEventId && r.nextBookingId == s.nextBookingId + 1
  {
  }

  /** Booking keeps the slack of every event. */
  lemma BookTicketPreservesSlack(s: Store, caller: UserId, eid: EventId, n: nat, e: EventId)
    requires Valid(s) && BookTicket(s, caller, eid, n).Success? && e in s.events
    ensures var r := BookTicket(s, caller, eid, n).value;
      e in r.events && Slack(r, e) == Slack(s, e)
  {
    var r := BookTicket(s, caller, eid, n).value;
    var booking := Booking(caller, eid, n, Booked);
    BookedTicketsAddFresh(s.bookings, e, s.nextBookingId, booking);
    assert r.bookings == s.bookings[s.nextBookingId := booking];
  }

  // ---------------------------------------------------------------------
  // Cancelling a booking

  /**
   * A successful cancellation cancels the booking, reverts its payment if
   * there is one (and creates none), gives its tickets back to its event,
   * and leaves every other booking, payment and event as it was.
   */
  lemma CancelBookingEffect(s: Store, caller: UserId, bid: BookingId)
    requires Valid(s) && CancelBooking(s, caller, bid).Success?
    ensures var r := CancelBooking(s, caller, bid).value; var b := s.bookings[bid];
      && r.bookings == s.bookings[bid := b.(status := Cancelled)]
      && r.payments.Keys == s.payments.Keys
      && (bid in s.payments ==> r.payments[bid] == s.payments[bid].(status := Reverted))
      && (forall k :: k in s.payments && k != bid ==> r.payments[k] == s.payments[k])
      && r.events.Keys == s.events.Keys
      && r.events[b.event] == s.events[b.event].(available := s.events[b.event].available + b.tickets)
      && (forall e :: e in s.events && e != b.event ==> r.events[e] == s.events[e])
      && r.nextEventId == s.nextEventId && r.nextBookingId == s.nextBookingId
  {
  }

  /** Cancelling keeps the slack of every event. */
  lemma CancelBookingPreservesSlack(s: Store, caller: UserId, bid: BookingId, e: EventId)
    requires Valid(s) && CancelBooking(s, caller, bid).Success? && e in s.events
    ensures var r := CancelBooking(s, caller, bid).value;
      e in r.events && Slack(r, e) == Slack(s, e)
  {
    var r := CancelBooking(s, caller, bid).value;
    BookedTicketsChangeOne(s.bookings, r.bookings, e, s.nextBookingId, bid);
  }

  /**
   * A second cancel of the same booking is refused before anything is
   * changed, so the tickets are given back once.
   */
  lemma CancelBookingTwice(s: Store, caller: UserId, bid: BookingId)
    requires Valid(s) && CancelBooking(s, caller, bid).Success?
    ensures var s1 := CancelBooking(s, caller, bid).value; var b := s.bookings[bid];
      && CancelBooking(s1, caller, bid) == Failure(AlreadyCancelled)
      && s1.events[b.event].available == s.events[b.event].available + b.tickets
  {
  }

  // ---------------------------------------------------------------------
  // Payments

  /**
   * A successful payment records a completed payment with the given method
   * and amount for the caller's own booking, and changes nothing else.
   */
  lemma MakePaymentEffect(s: Store, caller: UserId, bid: BookingId, paymentMethod: string, amount: int)
    requires Valid(s) && MakePayment(s, caller, bid, paymentMethod, amount).Success?
    ensures var r := MakePayment(s, caller, bid, paymentMethod, amount).value;
      && s.bookings[bid].user == caller
      && r.payments == s.payments[bid := Payment(paymentMethod, amount, Completed)]
      && r.bookings == s.bookings && r.events == s.events
      && r.nextEventId == s.nextEventId && r.nextBookingId == s.nextBookingId
  {
  }

  /** Paying keeps the slack of every event. */
  lemma MakePaymentPreservesSlack(s: Store, caller: UserId, bid: BookingId, paymentMethod: string, amount: int, e: EventId)
    requires Valid(s) && MakePayment(s, caller, bid, paymentMethod, amount).Success? && e in s.events
    ensures var r := MakePayment(s, caller, bid, paymentMethod, amount).value;
      e in r.events && Slack(r, e) == Slack(s, e)
  {
  }

  /**
   * Paying a second time is refused as a duplicate, whether the first
   * payment is completed or reverted and whether the booking is booked or
   * cancelled; paying for a cancelled booking without a payment is refused
   * as cancelled; someone else's booking is reported as missing.
   */
  lemma MakePaymentRefusals(s: Store, caller: UserId, bid: BookingId, paymentMethod: string, amount: int)
    requires Valid(s) && bid in s.bookings
    ensures bid in s.payments ==> MakePayment(s, caller, bid, paymentMethod, amount) == Failure(DuplicatePayment)
    ensures bid !in s.payments && s.bookings[bid].status == Cancelled ==> MakePayment(s, caller, bid, paymentMethod, amount) == Failure(BookingCancelled)
    ensures s.bookings[bid].status == Booked && bid !in s.payments && s.bookings[bid].user != caller ==> MakePayment(s, caller, bid, paymentMethod, amount) == Failure(NotFound)
  {
  }

  /** A second payment for the same booking is refused. */
  lemma PayTwice(s: Store, caller: UserId, bid: BookingId, m1: string, a1: int, m2: string, a2: int)
    requires Valid(s) && MakePayment(s, caller, bid, m1, a1).Success?
    ensures MakePayment(MakePayment(s, caller, bid, m1, a1).value, caller, bid, m2, a2) == Failure(DuplicatePayment)
  {
  }

  /**
   * A payment reversal reverts the payment, cancels the booking and gives
   * its tickets back, whoever asks and whatever the booking's status.
   */
  lemma RevertPaymentEffect(s: Store, bid: BookingId)
    requires Valid(s) && bid in s.bookings && bid in s.payments
    ensures var r := Serializers.RevertPayment(s, bid).value; var b := s.bookings[bid];
      && r.payments == s.payments[bid := s.payments[bid].(status := Reverted)]
      && r.bookings == s.bookings[bid := b.(status := Cancelled)]
      && r.events == Release(s.events, b.event, b.tickets)
      && r.nextEventId == s.nextEventId && r.nextBookingId == s.nextBookingId
  {
  }

  /**
   * A reversal keeps the slack when the booking was still booked; when the
   * booking was already cancelled its tickets are given back once more and
   * the slack of its event grows by the booking's ticket count.
   */
  lemma RevertPaymentSlack(s: Store, bid: BookingId, e: EventId)
    requires Valid(s) && Serializers.RevertPayment(s, bid).Success? && e in s.events
    ensures var r := Serializers.RevertPayment(s, bid).value; var b := s.bookings[bid];
      && e in r.events
      && Slack(r, e) == Slack(s, e) + (if e == b.event && b.status == Cancelled then b.tickets else 0)
  {
    var r := Serializers.RevertPayment(s, bid).value;
    BookedTicketsChangeOne(s.bookings, r.bookings, e, s.nextBookingId, bid);
  }

  /**
   * Pay, cancel, then revert: every step succeeds and the event ends up
   * with the booking's tickets given back twice.
   */
  lemma PayCancelRevertReleasesTwice(s: Store, caller: UserId, bid: BookingId, paymentMethod: string, amount: int)
    requires Valid(s) && bid in s.bookings && s.bookings[bid].user == caller
    requires s.bookings[bid].status == Booked && bid !in s.payments
    ensures MakePayment(s, caller, bid, paymentMethod, amount).Success?
    ensures var s1 := MakePayment(s, caller, bid, paymentMethod, amount).value;
      && CancelBooking(s1, caller, bid).Success?
      && var s2 := CancelBooking(s1, caller, bid).value;
      && Serializers.RevertPayment(s2, bid).Success?
      && var s3 := Serializers.RevertPayment(s2, bid).value; var b := s.bookings[bid];
      && s3.events[b.event].available == s.events[b.event].available + 2 * b.tickets
      && Slack(s3, b.event) == Slack(s, b.event) + b.tickets
  {
    var b := s.bookings[bid];
    var s1 := MakePayment(s, caller, bid, paymentMethod, amount).value;
    var s2 := CancelBooking(s1, caller, bid).value;
    CancelBookingPreservesSlack(s1, caller, bid, b.event);
    RevertPaymentSlack(s2, bid, b.event);
  }

  /** Reverting the same payment twice gives the tickets back twice. */
  lemma RevertTwiceReleasesTwice(s: Store, bid: BookingId)
    requires Valid(s) && Serializers.RevertPayment(s, bid).Success?
    ensures var s1 := Serializers.RevertPayment(s, bid).value; var b := s.bookings[bid];
      && Serializers.RevertPayment(s1, bid).Success?
      && Serializers.RevertPayment(s1, bid).value.events[b.event].available
         == s.events[b.event].available + 2 * b.tickets
  {
  }

  // ---------------------------------------------------------------------
  // Events

  /**
   * A new event's available count is the default whatever total was asked
   * for, its owner is the caller whatever the request says, and the slack
   * of every existing event is kept.
   */
  lemma CreateEventDefaults(s: Store, caller: User, req: Serializers.EventRequest, e: EventId)
    requires Valid(s) && Permissions.IsEventManager(caller)
    ensures var r := CreateEvent(s, caller, req).value; var id := s.nextEventId;
      && id in r.events && id !in s.events
      && r.events[id].available == DEFAULT_TICKETS
      && r.events[id].createdBy == caller.id
      && Slack(r, id) == DEFAULT_TICKETS
      && (e in s.events ==> e in r.events && Slack(r, e) == Slack(s, e))
  {
    var r := CreateEvent(s, caller, req).value;
    var id := s.nextEventId;
    BookedTicketsNone(r.bookings, id, r.nextBookingId);
  }

  /** The read-only fields of an event request have no effect. */
  lemma CreateEventIgnoresReadOnlyFields(s: Store, caller: User, req1: Serializers.EventRequest, req2: Serializers.EventRequest)
    requires Valid(s) && req1.totalTickets == req2.totalTickets
    ensures CreateEvent(s, caller, req1) == CreateEvent(s, caller, req2)
  {
  }

  /**
   * An event created with a total other than the default starts with
   * available plus booked different from its total.
   */
  lemma CreatedEventTotalMismatch(s: Store, caller: User, total: nat)
    requires Valid(s) && Permissions.IsEventManager(caller) && total != DEFAULT_TICKETS
    ensures var r := CreateEvent(s, caller, Serializers.EventRequest(Some(total), None, None)).value;
      Slack(r, s.nextEventId) != r.events[s.nextEventId].total
  {
    var r := CreateEvent(s, caller, Serializers.EventRequest(Some(total), None, None)).value;
    BookedTicketsNone(r.bookings, s.nextEventId, r.nextBookingId);
  }

  /**
   * The cancellation loop keeps the slack of the cancelled event: no booked
   * booking of it is left, and its available count has grown by exactly
   * what they held.
   */
  lemma ReleaseEventBookingsSlack(s: Store, eid: EventId)
    requires Valid(s) && eid in s.events
    ensures var r := ReleaseEventBookings(s, eid);
      && BookedTickets(r.bookings, eid, r.nextBookingId) == 0
      && Slack(r, eid) == Slack(s, eid)
      && (forall k :: k in r.bookings && r.bookings[k].event == eid ==> r.bookings[k].status == Cancelled)
  {
    var r := ReleaseEventBookings(s, eid);
    forall j | 0 <= j < r.nextBookingId
      ensures Contribution(r.bookings, eid, j) == 0
    {
      if j in s.bookings && IsBookedFor(s.bookings, eid, j) {
        assert r.bookings[j].status == Cancelled;
      }
    }
    BookedTicketsNone(r.bookings, eid, r.nextBookingId);
  }

  /**
   * A successful event cancellation deletes the event with all its
   * bookings and their payments, leaves other bookings and payments as they
   * were, and keeps the slack of every other event.
   */
  lemma CancelEventEffect(s: Store, caller: User, eid: EventId, e: EventId)
    requires Valid(s) && CancelEvent(s, caller, eid).Success?
    ensures var r := CancelEvent(s, caller, eid).value;
      && r.events.Keys == s.events.Keys - {eid}
      && (forall e' :: e' in r.events ==> r.events[e'] == s.events[e'])
      && (forall k :: k in r.bookings <==> k in s.bookings && s.bookings[k].event != eid)
      && (forall k :: k in r.bookings ==> r.bookings[k] == s.bookings[k])
      && (forall k :: k in r.payments <==> k in s.payments && s.bookings[k].event != eid)
      && (forall k :: k in r.payments ==> r.payments[k] == s.payments[k])
      && r.nextEventId == s.nextEventId && r.nextBookingId == s.nextBookingId
      && (e in s.events && e != eid ==> e in r.events && Slack(r, e) == Slack(s, e))
  {
    var released := ReleaseEventBookings(s, eid);
    var r := DeleteEvent(released, eid);
    if e in s.events && e != eid {
      forall j | 0 <= j < s.nextBookingId
        ensures Contribution(r.bookings, e, j) == Contribution(s.bookings, e, j)
      {
      }
      BookedTicketsAgree(r.bookings, s.bookings, e, s.nextBookingId);
    }
  }

  // ---------------------------------------------------------------------
  // Examples

  /** One event with 100 of 100 tickets, owned by manager 1. */
  function ExampleStore(): (s: Store)
    ensures Valid(s)
  {
    Store(map[0 := Event(100, 100, 1)], map[], map[], 1, 0)
  }

  /**
   * Book 2 of 100 (98 left), ask for 150 (refused, still 98), cancel the
   * first booking (100 again).
   */
  lemma BookingExample()
    ensures var s1 := BookTicket(ExampleStore(), 2, 0, 2);
      && s1.Success? && s1.value.events[0].available == 98
      && BookTicket(s1.value, 2, 0, 150) == Failure(InsufficientTickets)
      && CancelBooking(s1.value, 2, 0).Success?
      && CancelBooking(s1.value, 2, 0).value.events[0].available == 100
      && CancelBooking(s1.value, 3, 0) == Failure(NotFound)
  {
  }

  /** Pay for a 2-ticket booking (98 left), revert the payment: 100 again, payment reverted, booking cancelled. */
  lemma RevertExample()
    ensures var s1 := BookTicket(ExampleStore(), 2, 0, 2).value;
      && MakePayment(s1, 2, 0, "Credit Card", 10000).Success?
      && var s2 := MakePayment(s1, 2, 0, "Credit Card", 10000).value;
      && s2.payments[0] == Payment("Credit Card", 10000, Completed)
      && var s3 := Serializers.RevertPayment(s2, 0);
      && s3.Success? && s3.value.events[0].available == 100
      && s3.value.payments[0].status == Reverted && s3.value.bookings[0].status == Cancelled
  {
  }

  /** A plain user may not cancel the event; its creator may, and it is gone afterwards. */
  lemma CancelEventExample()
    ensures CancelEvent(ExampleStore(), User(2, RegularUser), 0) == Failure(Forbidden)
    ensures CancelEvent(ExampleStore(), User(3, EventManager), 0) == Failure(NotFound)
    ensures CancelEvent(ExampleStore(), User(1, EventManager), 7) == Failure(NotFound)
    ensures CancelEvent(ExampleStore(), User(1, EventManager), 0).Success?
    ensures 0 !in CancelEvent(ExampleStore(), User(1, EventManager), 0).value.events
  {
  }
}
