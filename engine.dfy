/**
 * The store as the views and serializers drive it: tables held in fields,
 * rows updated one field at a time, each request proved to have exactly the
 * effect its specification in `Views` or `Serializers` describes.
 */
module Engine {
  import opened Models
  import opened Ledger
  import Permissions
  import Serializers
  import Views

  class TicketStore {
    var events: map<EventId, Event>
    var bookings: map<BookingId, Booking>
    var payments: map<BookingId, Payment>
    var nextEventId: EventId
    var nextBookingId: BookingId

    /** The tables as one value. */
    function State(): Store
      reads this
    {
      Store(events, bookings, payments, nextEventId, nextBookingId)
    }

    predicate Valid()
      reads this
    {
      Models.Valid(State())
    }

    constructor ()
      ensures Valid() && State() == EMPTY_STORE
    {
      events, bookings, payments := map[], map[], map[];
      nextEventId, nextBookingId := 0, 0;
    }

    /** Creates an event owned by the caller; the read-only fields of `req` are ignored. */
    method CreateEvent(caller: User, req: Serializers.EventRequest) returns (outcome: Outcome)
      requires Valid()
      modifies this
      ensures Valid()
      ensures Applied(Views.CreateEvent(old(State()), caller, req), old(State()), State(), outcome)
    {
      if !Permissions.IsEventManager(caller) {
        return Fail(Forbidden);
      }
      var total := match req.totalTickets case Some(t) => t case None => DEFAULT_TICKETS;
      events := events[nextEventId := Event(total, DEFAULT_TICKETS, caller.id)];
      nextEventId := nextEventId + 1;
      return Pass;
    }

    /** The serializer's create step: take the tickets, then insert the booking. */
    method CreateBooking(user: UserId, eid: EventId, n: nat)
      requires Valid() && eid in events && n <= events[eid].available
      modifies this
      ensures Valid()
      ensures State() == Serializers.CreateBooking(old(State()), user, eid, n)
    {
      var event := events[eid];
      events := events[eid := event.(available := event.available - n)];
      bookings := bookings[nextBookingId := Booking(user, eid, n, Booked)];
      nextBookingId := nextBookingId + 1;
    }

    /** Books `n` tickets of event `eid` for the caller. */
    method BookTicket(caller: UserId, eid: EventId, n: nat) returns (outcome: Outcome)
      requires Valid()
      modifies this
      ensures Valid()
      ensures Applied(Views.BookTicket(old(State()), caller, eid, n), old(State()), State(), outcome)
    {
      if eid !in events {
        return Fail(NotFound);
      }
      outcome := Serializers.ValidateBooking(events[eid], n);
      if outcome.Pass? {
        CreateBooking(caller, eid, n);
      }
    }

    /** Cancels the caller's booking `bid`, reverting its payment and releasing its tickets. */
    method CancelBooking(caller: UserId, bid: BookingId) returns (outcome: Outcome)
      requires Valid()
      modifies this
      ensures Valid()
      ensures Applied(Views.CancelBooking(old(State()), caller, bid), old(State()), State(), outcome)
    {
      if bid !in bookings || bookings[bid].user != caller {
        return Fail(NotFound);
      }
      var booking := bookings[bid];
      if booking.status == Cancelled {
        return Fail(AlreadyCancelled);
      }
      bookings := bookings[bid := booking.(status := Cancelled)];
      if bid in payments {
        payments := payments[bid := payments[bid].(status := Reverted)];
      }
      var event := events[booking.event];
      events := events[booking.event := event.(available := event.available + booking.tickets)];
      return Pass;
    }

    /** Records the caller's payment for booking `bid`. */
    method MakePayment(caller: UserId, bid: BookingId, paymentMethod: string, amount: int) returns (outcome: Outcome)
      requires Valid()
      modifies this
      ensures Valid()
      ensures Applied(Views.MakePayment(old(State()), caller, bid, paymentMethod, amount), old(State()), State(), outcome)
    {
      if bid !in bookings {
        return Fail(BookingDoesNotExist);
      }
      outcome := Serializers.ValidatePayment(State(), bid);
      if outcome.Fail? {
        return;
      }
      if bookings[bid].user != caller {
        return Fail(NotFound);
      }
      payments := payments[bid := Payment(paymentMethod, amount, Completed)];
    }

    /** Reverts the payment of booking `bid`, cancels the booking and releases its tickets. */
    method RevertPayment(bid: BookingId) returns (outcome: Outcome)
      requires Valid()
      modifies this
      ensures Valid()
      ensures Applied(Serializers.RevertPayment(old(State()), bid), old(State()), State(), outcome)
    {
      if bid !in bookings {
        return Fail(BookingDoesNotExist);
      }
      var booking := bookings[bid];
      if bid !in payments {
        return Fail(NoPayment);
      }
      payments := payments[bid := payments[bid].(status := Reverted)];
      bookings := bookings[bid := booking.(status := Cancelled)];
      var event := events[booking.event];
      events := events[booking.event := event.(available := event.available + booking.tickets)];
      return Pass;
    }

    /**
     * One pass of the cancellation loop: if booking `k` is a booked booking
     * of `eid`, it is cancelled, its payment (if any) reverted and its
     * tickets added back to the event.
     */
    method ReleaseBooking(eid: EventId, k: BookingId)
      requires eid in events
      modifies this
      ensures State() == Views.ReleaseBooking(old(State()), eid, k)
    {
      if k in bookings && bookings[k].event == eid && bookings[k].status == Booked {
        var booking := bookings[k];
        bookings := bookings[k := booking.(status := Cancelled)];
        if k in payments {
          payments := payments[k := payments[k].(status := Reverted)];
        }
        var event := events[eid];
        events := events[eid := event.(available := event.available + booking.tickets)];
      }
    }

    /**
     * The cancellation loop: visits the bookings in id order and releases
     * each booked one of `eid`.
     */
    method ReleaseEventBookings(eid: EventId)
      requires Valid() && eid in events
      modifies this
      ensures Valid()
      ensures State() == Views.ReleaseEventBookings(old(State()), eid)
    {
      ghost var s0 := State();
      var k := 0;
      Views.ReleasedBelowZero(s0, eid);
      while k < nextBookingId
        invariant k <= nextBookingId
        invariant State() == Views.ReleasedBelow(s0, eid, k)
      {
        Views.ReleasedBelowStep(s0, eid, k);
        ReleaseBooking(eid, k);
        k := k + 1;
      }
      ghost var released := Views.ReleaseEventBookings(s0, eid);
      assert Models.Valid(released);
    }

    /** Deletes event `eid`; its bookings and their payments go with it. */
    method DeleteEvent(eid: EventId)
      requires Valid()
      modifies this
      ensures Valid()
      ensures State() == Models.DeleteEvent(old(State()), eid)
    {
      events := events - {eid};
      bookings := map k | k in bookings && bookings[k].event != eid :: bookings[k];
      payments := map k | k in payments && k in bookings :: payments[k];
    }

    /** Cancels the caller's event `eid`: releases its booked bookings, then deletes it. */
    method CancelEvent(caller: User, eid: EventId) returns (outcome: Outcome)
      requires Valid()
      modifies this
      ensures Valid()
      ensures Applied(Views.CancelEvent(old(State()), caller, eid), old(State()), State(), outcome)
    {
      if !Permissions.IsEventManager(caller) {
        return Fail(Forbidden);
      }
      if eid !in events || events[eid].createdBy != caller.id {
        return Fail(NotFound);
      }
      ReleaseEventBookings(eid);
      DeleteEvent(eid);
      return Pass;
    }
  }
}
