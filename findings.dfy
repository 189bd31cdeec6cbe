/**
 * Payment creation as the request handler is written: the payment checks
 * look at the booking named by the request's `booking` field, while the
 * payment is attached to the booking named by its `booking_id` field,
 * looked up among the caller's bookings. Nothing ties the two together.
 */
module Findings {
  import opened Models
  import Serializers
  import Views

  /**
   * `checked` is the booking the checks run on, `target` the booking that
   * gets the payment. A target that already has a payment is stopped by
   * the one-to-one relation's uniqueness, reported here as a duplicate.
   */
  function MakePaymentAsWritten(s: Store, caller: UserId, checked: BookingId, target: BookingId,
                                paymentMethod: string, amount: int): (r: Result<Store>)
    requires Valid(s)
    ensures r.Success? ==> target in s.bookings && s.bookings[target].user == caller && target !in s.payments
    ensures r.Success? ==> r.value.payments == s.payments[target := Payment(paymentMethod, amount, Completed)]
  {
    if checked !in s.bookings then Failure(BookingDoesNotExist)
    else match Serializers.ValidatePayment(s, checked)
      case Fail(e) => Failure(e)
      case Pass =>
        if target !in s.bookings || s.bookings[target].user != caller then Failure(NotFound)
        else if target in s.payments then Failure(DuplicatePayment)
        else Success(s.(payments := s.payments[target := Payment(paymentMethod, amount, Completed)]))
  }

  /** When both fields name the same booking, the handler behaves as intended. */
  lemma AsWrittenAgreesOnOneBooking(s: Store, caller: UserId, bid: BookingId, paymentMethod: string, amount: int)
    requires Valid(s)
    ensures MakePaymentAsWritten(s, caller, bid, bid, paymentMethod, amount) == Views.MakePayment(s, caller, bid, paymentMethod, amount)
  {
  }

  /**
   * Booking 0 is booked, booking 1 (same user) is cancelled. Checking 0 and
   * paying for 1 succeeds and leaves a completed payment on a cancelled
   * booking, which no intended path can produce.
   */
  lemma AsWrittenPaysForCancelledBooking()
    ensures var s := Store(map[0 := Event(100, 98, 1)],
                           map[0 := Booking(2, 0, 1, Booked), 1 := Booking(2, 0, 1, Cancelled)],
                           map[], 1, 2);
      && Valid(s)
      && Views.MakePayment(s, 2, 1, "Card", 500) == Failure(BookingCancelled)
      && var r := MakePaymentAsWritten(s, 2, 0, 1, "Card", 500);
      && r.Success?
      && r.value.payments[1].status == Completed
      && r.value.bookings[1].status == Cancelled
      && !Valid(r.value)
  {
  }
}
