/**
 * Ticket accounting: how many tickets the booked bookings of an event hold,
 * the event's slack (available plus booked), and the release step that the
 * cancellation paths share.
 */
module Ledger {
  import opened Models

  /** Tickets that booking `k` holds against event `e`: its count while booked, else 0. */
  function Contribution(bookings: map<BookingId, Booking>, e: EventId, k: BookingId): nat
  {
    if k in bookings && bookings[k].event == e && bookings[k].status == Booked
    then bookings[k].tickets
    else 0
  }

  /** Tickets held by the booked bookings of `e` whose ids are below `bound`. */
  function BookedTickets(bookings: map<BookingId, Booking>, e: EventId, bound: nat): nat
    decreases bound
  {
    if bound == 0 then 0
    else BookedTickets(bookings, e, bound - 1) + Contribution(bookings, e, bound - 1)
  }

  /** Available tickets plus the tickets held by the event's booked bookings. */
  function Slack(s: Store, e: EventId): int
    requires e in s.events
  {
    s.events[e].available + BookedTickets(s.bookings, e, s.nextBookingId)
  }

  /** Gives `n` tickets back to event `eid`; there is no upper clamp. */
  function Release(events: map<EventId, Event>, eid: EventId, n: nat): (r: map<EventId, Event>)
    requires eid in events
    ensures r.Keys == events.Keys
    ensures r[eid].available == events[eid].available + n
    ensures r[eid].total == events[eid].total && r[eid].createdBy == events[eid].createdBy
    ensures forall e :: e in events && e != eid ==> r[e] == events[e]
  {
    events[eid := events[eid].(available := events[eid].available + n)]
  }

  /** Releasing `a` and then `b` tickets is releasing `a + b`; releasing none changes nothing. */
  lemma ReleaseTwice(events: map<EventId, Event>, eid: EventId, a: nat, b: nat)
    requires eid in events
    ensures Release(Release(events, eid, a), eid, b) == Release(events, eid, a + b)
    ensures Release(events, eid, 0) == events
  {
  }

  /** Two booking tables holding the same tickets below `bound` give the same sum. */
  lemma {:induction false} BookedTicketsAgree(m1: map<BookingId, Booking>, m2: map<BookingId, Booking>, e: EventId, bound: nat)
    requires forall j :: 0 <= j < bound ==> Contribution(m1, e, j) == Contribution(m2, e, j)
    ensures BookedTickets(m1, e, bound) == BookedTickets(m2, e, bound)
    decreases bound
  {
    if bound > 0 {
      BookedTicketsAgree(m1, m2, e, bound - 1);
    }
  }

  /** Changing what one booking `j` below `bound` holds changes the sum by exactly that difference. */
  lemma {:induction false} BookedTicketsChangeOne(m1: map<BookingId, Booking>, m2: map<BookingId, Booking>, e: EventId, bound: nat, j: BookingId)
    requires j < bound
    requires forall i :: 0 <= i < bound && i != j ==> Contribution(m1, e, i) == Contribution(m2, e, i)
    ensures BookedTickets(m2, e, bound) == BookedTickets(m1, e, bound) - Contribution(m1, e, j) + Contribution(m2, e, j)
    decreases bound
  {
    if j == bound - 1 {
      BookedTicketsAgree(m1, m2, e, bound - 1);
    } else {
      BookedTicketsChangeOne(m1, m2, e, bound - 1, j);
    }
  }

  /** When no booking below `bound` is booked for `e`, the sum is zero. */
  lemma {:induction false} BookedTicketsNone(m: map<BookingId, Booking>, e: EventId, bound: nat)
    requires forall j :: 0 <= j < bound ==> Contribution(m, e, j) == 0
    ensures BookedTickets(m, e, bound) == 0
    decreases bound
  {
    if bound > 0 {
      BookedTicketsNone(m, e, bound - 1);
    }
  }

  /**
   * Adding booking `k` (a fresh id, equal to the old bound) adds exactly what
   * it holds.
   */
  lemma BookedTicketsAddFresh(m: map<BookingId, Booking>, e: EventId, k: BookingId, b: Booking)
    requires k !in m
    ensures BookedTickets(m[k := b], e, k + 1) == BookedTickets(m, e, k) + (if b.event == e && b.status == Booked then b.tickets else 0)
  {
    BookedTicketsAgree(m, m[k := b], e, k);
  }
}
