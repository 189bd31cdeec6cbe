/**
 * The view-level operations: what each request does to the store, as one
 * atomic step that either yields the new store or a typed error and leaves
 * the store as it was.
 */
module Views {
  import opened Models
  import opened Ledger
  import Permissions
  import Serializers

  /** Event creation: managers only; the new event is owned by the caller. */
  function CreateEvent(s: Store, caller: User, req: Serializers.EventRequest): (r: Result<Store>)
    requires Valid(s)
    ensures r.Success? <==> Permissions.IsEventManager(caller)
    ensures r.Failure? ==> r.error == Forbidden
    ensures r.Success? ==> Valid(r.value)
  {
    if !Permissions.IsEventManager(caller) then Failure(Forbidden)
    else Success(Serializers.SaveEvent(s, caller.id, req))
  }

  /** Booking: the event must exist and hold enough tickets; the caller owns the booking. */
  function BookTicket(s: Store, caller: UserId, eid: EventId, n: nat): (r: Result<Store>)
    requires Valid(s)
    ensures r.Success? <==> eid in s.events && n <= s.events[eid].available
    ensures eid !in s.events ==> r == Failure(NotFound)
    ensures eid in s.events && s.events[eid].available < n ==> r == Failure(InsufficientTickets)
    ensures r.Success? ==> Valid(r.value)
  {
    if eid !in s.events then Failure(NotFound)
    else match Serializers.ValidateBooking(s.events[eid], n)
      case Fail(e) => Failure(e)
      case Pass => Success(Serializers.CreateBooking(s, caller, eid, n))
  }

  /**
   * Cancelling one's own booking: a booking of someone else is reported as
   * missing, a second cancel is refused; otherwise the booking is cancelled,
   * its payment (if any) reverted and its tickets released.
   */
  function CancelBooking(s: Store, caller: UserId, bid: BookingId): (r: Result<Store>)
    requires Valid(s)
    ensures r.Success? <==> bid in s.bookings && s.bookings[bid].user == caller && s.bookings[bid].status == Booked
    ensures (bid !in s.bookings || s.bookings[bid].user != caller) ==> r == Failure(NotFound)
    ensures bid in s.bookings && s.bookings[bid].user == caller && s.bookings[bid].status == Cancelled ==> r == Failure(AlreadyCancelled)
    ensures r.Success? ==> Valid(r.value)
  {
    if bid !in s.bookings || s.bookings[bid].user != caller then Failure(NotFound)
    else
      var booking := s.bookings[bid];
      if booking.status.Cancelled? then Failure(AlreadyCancelled)
      else
        var bookings := s.bookings[bid := booking.(status := Cancelled)];
        var payments := if bid in s.payments then s.payments[bid := s.payments[bid].(status := Reverted)] else s.payments;
        Success(s.(bookings := bookings, payments := payments,
                   events := Release(s.events, booking.event, booking.tickets)))
  }

  /**
   * Paying for a booking: the payment checks run first, then the booking
   * must belong to the caller; a completed payment is recorded.
   */
  function MakePayment(s: Store, caller: UserId, bid: BookingId, paymentMethod: string, amount: int): (r: Result<Store>)
    requires Valid(s)
    ensures r.Success? <==> bid in s.bookings && s.bookings[bid].user == caller
                            && s.bookings[bid].status == Booked && bid !in s.payments
    ensures bid !in s.bookings ==> r == Failure(BookingDoesNotExist)
    ensures r.Success? ==> Valid(r.value)
  {
    if bid !in s.bookings then Failure(BookingDoesNotExist)
    else match Serializers.ValidatePayment(s, bid)
      case Fail(e) => Failure(e)
      case Pass =>
        if s.bookings[bid].user != caller then Failure(NotFound)
        else Success(Serializers.CreatePayment(s, bid, paymentMethod, amount))
  }

  /** Booking `k` is one the event cancellation acts on. */
  predicate IsBookedFor(bookings: map<BookingId, Booking>, eid: EventId, k: BookingId)
  {
    k in bookings && bookings[k].event == eid && bookings[k].status == Booked
  }

  /** The bookings after the cancellation loop has handled every id below `bound`. */
  function CancelBookedBelow(bookings: map<BookingId, Booking>, eid: EventId, bound: nat): map<BookingId, Booking>
  {
    map k | k in bookings :: if k < bound && IsBookedFor(bookings, eid, k) then bookings[k].(status := Cancelled) else bookings[k]
  }

  /** The payments after the cancellation loop has handled every booking id below `bound`. */
  function RevertPaymentsBelow(bookings: map<BookingId, Booking>, payments: map<BookingId, Payment>, eid: EventId, bound: nat): map<BookingId, Payment>
  {
    map k | k in payments :: if k < bound && IsBookedFor(bookings, eid, k) then payments[k].(status := Reverted) else payments[k]
  }

  /** One more step of the cancellation loop over the bookings: booking `k` is handled. */
  lemma CancelBookedStep(bookings: map<BookingId, Booking>, eid: EventId, k: nat, current: map<BookingId, Booking>)
    requires current == CancelBookedBelow(bookings, eid, k)
    ensures IsBookedFor(current, eid, k) <==> IsBookedFor(bookings, eid, k)
    ensures CancelBookedBelow(bookings, eid, k + 1) ==
      if IsBookedFor(current, eid, k) then current[k := current[k].(status := Cancelled)] else current
  {
  }

  /** One more step of the cancellation loop over the payments: booking `k`'s payment is handled. */
  lemma RevertPaymentsStep(bookings: map<BookingId, Booking>, payments: map<BookingId, Payment>, eid: EventId, k: nat, current: map<BookingId, Payment>)
    requires current == RevertPaymentsBelow(bookings, payments, eid, k)
    ensures RevertPaymentsBelow(bookings, payments, eid, k + 1) ==
      if IsBookedFor(bookings, eid, k) && k in current then current[k := current[k].(status := Reverted)] else current
  {
  }

  /**
   * One pass of the cancellation loop: a booked booking `k` of `eid` is
   * cancelled, its payment (if any) reverted and its tickets given back.
   */
  function ReleaseBooking(s: Store, eid: EventId, k: BookingId): (r: Store)
    requires eid in s.events
    ensures r.events.Keys == s.events.Keys && r.bookings.Keys == s.bookings.Keys && r.payments.Keys == s.payments.Keys
    ensures !IsBookedFor(s.bookings, eid, k) ==> r == s
    ensures IsBookedFor(s.bookings, eid, k) ==>
      && r.bookings[k] == s.bookings[k].(status := Cancelled)
      && (k in s.payments ==> r.payments[k] == s.payments[k].(status := Reverted))
      && r.events[eid] == s.events[eid].(available := s.events[eid].available + s.bookings[k].tickets)
    ensures forall j :: j in s.bookings && j != k ==> r.bookings[j] == s.bookings[j]
    ensures forall j :: j in s.payments && j != k ==> r.payments[j] == s.payments[j]
    ensures forall e :: e in s.events && e != eid ==> r.events[e] == s.events[e]
    ensures r.nextEventId == s.nextEventId && r.nextBookingId == s.nextBookingId
  {
    if IsBookedFor(s.bookings, eid, k) then
      var payments := if k in s.payments then s.payments[k := s.payments[k].(status := Reverted)] else s.payments;
      s.(bookings := s.bookings[k := s.bookings[k].(status := Cancelled)], payments := payments,
         events := Release(s.events, eid, s.bookings[k].tickets))
    else s
  }

  /** The store once the cancellation loop has handled every booking id below `bound`. */
  function ReleasedBelow(s: Store, eid: EventId, bound: nat): Store
    requires eid in s.events
  {
    s.(events := Release(s.events, eid, BookedTickets(s.bookings, eid, bound)),
       bookings := CancelBookedBelow(s.bookings, eid, bound),
       payments := RevertPaymentsBelow(s.bookings, s.payments, eid, bound))
  }

  /** Before the loop nothing has changed. */
  lemma ReleasedBelowZero(s: Store, eid: EventId)
    requires eid in s.events
    ensures ReleasedBelow(s, eid, 0) == s
  {
    ReleaseTwice(s.events, eid, 0, 0);
    assert CancelBookedBelow(s.bookings, eid, 0) == s.bookings;
    assert RevertPaymentsBelow(s.bookings, s.payments, eid, 0) == s.payments;
  }

  /** Each pass of the loop moves the bound up by one. */
  lemma ReleasedBelowStep(s: Store, eid: EventId, k: nat)
    requires eid in s.events
    ensures ReleasedBelow(s, eid, k + 1) == ReleaseBooking(ReleasedBelow(s, eid, k), eid, k)
  {
    var current := ReleasedBelow(s, eid, k);
    CancelBookedStep(s.bookings, eid, k, current.bookings);
    RevertPaymentsStep(s.bookings, s.payments, eid, k, current.payments);
    ReleaseTwice(s.events, eid, BookedTickets(s.bookings, eid, k), Contribution(s.bookings, eid, k));
  }

  /**
   * The effect of the cancellation loop over the booked bookings of `eid`:
   * each is cancelled, its payment reverted, and the event gets back the
   * tickets they held.
   */
  function ReleaseEventBookings(s: Store, eid: EventId): (r: Store)
    requires Valid(s) && eid in s.events
    ensures Valid(r)
    ensures r.events.Keys == s.events.Keys
    ensures r.events[eid] == s.events[eid].(available := s.events[eid].available + BookedTickets(s.bookings, eid, s.nextBookingId))
    ensures forall e :: e in s.events && e != eid ==> r.events[e] == s.events[e]
    ensures r.bookings.Keys == s.bookings.Keys && r.payments.Keys == s.payments.Keys
    ensures forall k :: k in s.bookings ==>
      r.bookings[k] == if IsBookedFor(s.bookings, eid, k) then s.bookings[k].(status := Cancelled) else s.bookings[k]
    ensures forall k :: k in s.payments ==>
      r.payments[k] == if IsBookedFor(s.bookings, eid, k) then s.payments[k].(status := Reverted) else s.payments[k]
    ensures r.nextEventId == s.nextEventId && r.nextBookingId == s.nextBookingId
  {
    ReleasedBelow(s, eid, s.nextBookingId)
  }

  /**
   * Event cancellation: managers only, and only the event's creator; the
   * event's booked bookings are released and the event is then deleted,
   * together with its bookings and their payments.
   */
  function CancelEvent(s: Store, caller: User, eid: EventId): (r: Result<Store>)
    requires Valid(s)
    ensures r.Success? <==> Permissions.IsEventManager(caller) && eid in s.events && s.events[eid].createdBy == caller.id
    ensures !Permissions.IsEventManager(caller) ==> r == Failure(Forbidden)
    ensures Permissions.IsEventManager(caller) && (eid !in s.events || s.events[eid].createdBy != caller.id) ==> r == Failure(NotFound)
    ensures r.Success? ==> Valid(r.value) && eid !in r.value.events
  {
    if !Permissions.IsEventManager(caller) then Failure(Forbidden)
    else if eid !in s.events || s.events[eid].createdBy != caller.id then Failure(NotFound)
    else Success(DeleteEvent(ReleaseEventBookings(s, eid), eid))
  }
}
