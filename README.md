# Ticket booking: inventory and reservation lifecycle

A Dafny model of the inventory and reservation lifecycle of a Django REST ticket
booking backend. Event managers publish events that carry a ticket count. Users book
tickets, pay for their bookings (a simulated payment), and cancel them. A payment can
be reverted, and a manager can cancel a whole event. Every path that reverses a
booking gives its tickets back to the event.

The model keeps one sequential store (`Models.Store`) with three tables:

- events: total, available and the creating manager;
- bookings: user, event, ticket count and status (`Booked` or `Cancelled`);
- payments: keyed by booking id, so a booking has at most one payment; each has a
  method, an amount and a status (`Completed` or `Reverted`).

Each request is one atomic step. The result is `Success(new store)` or
`Failure(error)`, and an error leaves the store untouched. The error set is
`NotFound`, `Forbidden`, `InsufficientTickets`, `AlreadyCancelled`,
`BookingCancelled`, `DuplicatePayment`, `BookingDoesNotExist` and `NoPayment`.

Modules:

- `Models` (models.dfy): the records, their enumerations, the store, the store
  invariant `Valid`, and the cascading delete of an event.
- `Permissions` (permissions.dfy): the event-manager role check.
- `Ledger` (ledger.dfy): the sum of booked tickets per event, and the event's
  *slack*. Slack is available tickets plus the tickets its booked bookings hold.
- `Serializers` (serializers.dfy): the validation steps as pure functions, plus the
  writes that the serializers' `create`/`save` perform.
- `Views` (views.dfy): each request's effect on the store.
- `Engine` (engine.dfy): class `TicketStore`. It holds the tables in fields and
  updates rows field by field, as the views do. Each method is proved to have exactly
  the effect of its `Views`/`Serializers` function. The event cancellation loop is a
  `while` loop with an invariant.
- `Properties` (properties.dfy): lemmas relating the operations.
- `Findings` (findings.dfy): payment creation as written, next to the corrected form.

The store invariant `Valid` says four things. Ids are below the id counters. Every
booking's event exists. Every payment's booking exists. A payment is `Completed`
exactly while its booking is `Booked`. Every operation preserves `Valid`.

The central accounting property is slack conservation. Slack is *not*
`available + booked == total`, because event creation does not set `available` to
`total` (see below). Booking, cancelling, paying and creating an event keep the slack
of every event. Event cancellation keeps the slack of every surviving event. A
payment reversal keeps it when the booking was still booked. When the booking was
already cancelled, the reversal gives the tickets back a second time, so the slack
grows by the booking's ticket count (`Properties.RevertPaymentSlack`). One way to
reach that case is pay, then cancel, then revert
(`Properties.PayCancelRevertReleasesTwice`).

### Behaviour of the code worth knowing

- Event creation does not set `available = total`. `available_tickets` is read-only
  in the event serializer, so it always takes the default of 100, whatever
  `total_tickets` is (`Properties.CreatedEventTotalMismatch`).
- `number_of_tickets` is a non-negative integer field, so a booking of 0 tickets is
  accepted.
- Releasing tickets has no upper clamp. A repeated payment reversal raises
  `available` past `total`.
- A payment reversal checks neither the booking's status nor its owner.
- A payment for a missing booking is refused by the payment serializer's
  primary-key field, and the model reports it as `BookingDoesNotExist`. The
  ownership lookup (`NotFound`) runs only after the payment checks have passed.
- The payment's `booking` field stands for a one-to-one relation
  (api/models.py:66), so the field carries a uniqueness check of its own. Field
  checks run before the serializer's `validate`. A booking that already has a
  payment is therefore refused as a duplicate, even when it is cancelled. The
  cancelled check in `validate` is reached only for a booking without a payment,
  and the duplicate check in `validate` never fires.
- The event-cancellation test at api/tests.py:485-487 expects the booking to survive
  with status cancelled. The foreign key at api/models.py:51 cascades, so the model
  deletes the booking, and its payment with it.

## Model

| member | source | states |
|---|---|---|
| Permissions.IsEventManager | api/permissions.py:4-5 | the permission is refused exactly to users who keep the default role given at registration |
| Permissions.RoleDecidesPermission | api/permissions.py:4-5 | whoever the user is, the default role is refused and the manager role admitted |
| Permissions.PermissionIgnoresIdentity | api/permissions.py:4-5 | the answer depends only on the caller's role, not on who the caller is |
| Models.DeleteEvent | api/models.py:51-66 | deleting an event removes exactly its bookings and their payments, leaves every other row unchanged, and keeps the store invariant |
| Ledger.Release | api/serializers.py:148-150 | the event gets back exactly n available tickets, with no upper clamp; its total and owner and every other event stay |
| Ledger.ReleaseTwice | api/views.py:98 | giving back a and then b tickets is giving back a + b; giving back none changes nothing |
| Ledger.BookedTicketsChangeOne | api/views.py:96-98 | changing what one booking holds changes the event's booked total by exactly that difference |
| Ledger.BookedTicketsAddFresh | api/serializers.py:89-91 | a new booking under a fresh id adds exactly its tickets to its event's booked total |
| Serializers.SaveEvent | api/serializers.py:59-63 | a new event gets a fresh id, available = 100 and owner = caller whatever the request holds; total comes from the request or defaults to 100; the invariant is kept |
| Serializers.ValidateBooking | api/serializers.py:78-83 | a booking is refused with InsufficientTickets exactly when available < n |
| Serializers.CreateBooking | api/serializers.py:85-91 | the event's available drops by exactly n, its total and owner stay; one new booking (user, event, n, Booked) appears under the next booking id, which then advances; every other row and the event counter stay; the invariant is kept |
| Serializers.ValidatePayment | api/serializers.py:102-114 | a payment passes exactly for a booked booking without a payment; an existing payment of any status gives DuplicatePayment before the booking's status is looked at (the one-to-one field's uniqueness check); otherwise a cancelled booking gives BookingCancelled |
| Serializers.CreatePayment | api/serializers.py:116-118 | adds one Completed payment with the given method and amount; bookings and events unchanged; the invariant is kept |
| Serializers.ValidateRevertBookingId | api/serializers.py:125-130 | an unknown booking id fails with BookingDoesNotExist; a known one yields that booking |
| Serializers.RevertPayment | api/serializers.py:132-150 | succeeds exactly when the booking exists and has a payment; BookingDoesNotExist / NoPayment otherwise; the invariant is kept |
| Views.CreateEvent | api/views.py:45-51 | succeeds exactly for event managers (Forbidden otherwise); the invariant is kept |
| Views.BookTicket | api/views.py:63-68 | succeeds exactly when the event exists and n <= available; NotFound for a missing event, InsufficientTickets otherwise; the invariant is kept |
| Views.CancelBooking | api/views.py:82-104 | succeeds exactly for the caller's own booked booking; NotFound for a missing or foreign booking; AlreadyCancelled for a cancelled one; the invariant is kept |
| Views.MakePayment | api/views.py:111-120 | succeeds exactly for the caller's own booked booking without a payment; the invariant is kept |
| Views.ReleaseBooking | api/views.py:147-159 | one pass of the cancellation loop: a booked booking of the event is cancelled, its payment reverted and its tickets given back to the event; any other booking leaves the store unchanged; no other row changes |
| Views.ReleasedBelowStep | api/views.py:147-159 | one more pass of the cancellation loop moves its handled prefix of booking ids up by one |
| Views.ReleaseEventBookings | api/views.py:144-159 | every booked booking of the event becomes cancelled and its payment reverted; every other row is unchanged; the event's available rises by the tickets they held and its total and owner stay |
| Views.CancelEvent | api/views.py:139-173 | Forbidden for non-managers; NotFound for a missing event or one created by another manager; on success the event is gone and the invariant is kept |
| Engine.TicketStore.constructor | api/models.py:35-66 | a new store is empty and satisfies the invariant |
| Engine.TicketStore.CreateEvent | api/views.py:50-51 | the new state and outcome are those of Views.CreateEvent |
| Engine.TicketStore.CreateBooking | api/serializers.py:85-91 | decrements available, then inserts the booking; the new state is Serializers.CreateBooking |
| Engine.TicketStore.BookTicket | api/views.py:67-68 | the new state and outcome are those of Views.BookTicket; the booking's owner is the caller |
| Engine.TicketStore.CancelBooking | api/views.py:82-104 | field-by-field updates with the effect of Views.CancelBooking; on an error the state is unchanged |
| Engine.TicketStore.MakePayment | api/views.py:111-120 | the new state and outcome are those of Views.MakePayment |
| Engine.TicketStore.RevertPayment | api/serializers.py:132-150 | field-by-field updates with the effect of Serializers.RevertPayment |
| Engine.TicketStore.ReleaseBooking | api/views.py:146-159 | one pass of the cancellation loop: cancel, revert the payment if any, add the tickets back |
| Engine.TicketStore.ReleaseEventBookings | api/views.py:144-159 | the loop, whose invariant says that the bookings below the current id are handled, ends in Views.ReleaseEventBookings and keeps the invariant |
| Engine.TicketStore.DeleteEvent | api/views.py:171 | the new state is the cascading delete Models.DeleteEvent |
| Engine.TicketStore.CancelEvent | api/views.py:142-173 | permission and ownership checks, the loop, then the delete: the effect of Views.CancelEvent |
| Properties.BookTicketReserves | api/serializers.py:81-91 | a successful booking lowers available by exactly n (e.g. 100 to 98), keeps the event's total and owner, adds one booked booking owned by the caller under the next id, and changes no other row |
| Properties.BookTicketPreservesSlack | api/serializers.py:85-91 | booking keeps the slack of every event |
| Properties.CancelBookingEffect | api/views.py:87-99 | cancellation cancels the booking, reverts an existing payment and creates none, raises its event's available by n while its total and owner stay, and leaves every other row and both id counters unchanged |
| Properties.CancelBookingPreservesSlack | api/views.py:87-99 | cancellation keeps the slack of every event |
| Properties.CancelBookingTwice | api/views.py:84-99 | a second cancel fails with AlreadyCancelled, so the tickets are released once |
| Properties.MakePaymentEffect | api/views.py:115-120 | a successful payment is for the caller's booking and records exactly (method, amount, Completed); events, bookings and both id counters stay |
| Properties.MakePaymentPreservesSlack | api/views.py:115-120 | paying keeps the slack of every event |
| Properties.MakePaymentRefusals | api/serializers.py:102-114 | an existing payment gives DuplicatePayment whatever its status and the booking's; a cancelled booking without a payment gives BookingCancelled; a foreign booking gives NotFound |
| Properties.PayTwice | api/serializers.py:112-113 | after a successful payment, paying again for the same booking fails as a duplicate |
| Properties.RevertPaymentEffect | api/serializers.py:139-150 | a reversal sets the payment Reverted and the booking Cancelled and releases n tickets, whoever asks |
| Properties.RevertPaymentSlack | api/serializers.py:132-150 | a reversal keeps the slack, except that an already cancelled booking's event gains n |
| Properties.PayCancelRevertReleasesTwice | api/serializers.py:132-150 | pay, cancel, revert all succeed, and available ends 2n above where it started |
| Properties.RevertTwiceReleasesTwice | api/serializers.py:132-150 | a second reversal of the same booking succeeds and releases n again |
| Properties.CreateEventDefaults | api/serializers.py:59-63 | the new event has available = 100 and owner = caller; its slack is 100; existing events keep their slack |
| Properties.CreateEventIgnoresReadOnlyFields | api/serializers.py:63 | requests that differ only in available_tickets or created_by give the same result |
| Properties.CreatedEventTotalMismatch | api/models.py:37-38 | an event created with total other than 100 starts with available + booked different from total |
| Properties.ReleaseEventBookingsSlack | api/views.py:144-159 | after the loop no booked booking of the event remains, and available has grown by exactly what they held, so the event's slack is kept |
| Properties.CancelEventEffect | api/views.py:142-173 | after event cancellation the event, its bookings and their payments are gone; every other event, booking and payment and both id counters are unchanged; other events keep their slack |
| Properties.BookingExample | api/tests.py:204-227 | concrete run: 100, book 2, then 98; book 150 refused; cancel by the owner gives 100; cancel by another user gives NotFound |
| Properties.RevertExample | api/tests.py:367-389 | concrete run: pay for a 2-ticket booking, then revert: 100 again, payment reverted, booking cancelled |
| Properties.CancelEventExample | api/tests.py:479-499 | concrete run: a plain user gets Forbidden; another manager or a missing event gets NotFound; the creator succeeds |
| Findings.MakePaymentAsWritten | api/views.py:111-120 | the handler as written: the checks run on one booking, the payment goes to another booking of the caller |
| Findings.AsWrittenAgreesOnOneBooking | api/views.py:115-120 | when both fields name one booking, the as-written handler equals Views.MakePayment |
| Findings.AsWrittenPaysForCancelledBooking | api/serializers.py:108-113 | concrete input on which the as-written handler leaves a completed payment on a cancelled booking |

## Findings

| source | as written | input that shows it | evidently intended | confidence | as-written member | corrected member |
|---|---|---|---|---|---|---|
| api/views.py:111-120 | the serializer checks the booking named by the request's `booking` field; the view attaches the payment to the booking named by `booking_id` | booking 0 booked, booking 1 cancelled, both of user 2; request with booking = 0, booking_id = 1 | the checks and the payment concern one booking | not executed; high | Findings.MakePaymentAsWritten, Findings.AsWrittenPaysForCancelledBooking | Views.MakePayment |

## Left out

- Registration, login and logout (api/serializers.py:8-56, api/views.py:21-42): password hashing and token issue and blacklisting live in libraries that are not part of this model.
- Email notification in event cancellation (api/views.py:162-168): this is I/O. A send failure part-way through the loop would leave earlier bookings updated with no transaction around them. The model treats the whole cancellation as atomic.
- Concurrency: the unlocked gap between the availability check and the decrement is not modelled. Every operation is atomic and sequential.
- Event listing, filtering, search and ordering (api/views.py:54-60), and the "my bookings" listing (api/views.py:71-76). These are read-only queries whose behaviour lives in the framework's filter backends.
- api/urls.py is routing only and is not part of this model.
- HTTP status codes and response bodies are mapped to the typed errors.
- Serializer field validation beyond types: ticket counts are `nat`, so negative counts cannot be expressed.
- When an event id does not exist, booking reports NotFound. The framework's primary-key field reports this as a validation error instead.
- `booking_date` and `payment_date` timestamps.
- Descriptive event fields (title, description, date, time, location, category, payment options).
- The user table, user deletion and its cascades (api/models.py:36,50): no core operation deletes users.
- The payment amount is an integer number of cents that is never computed with. The reversal `reason` is accepted by the source and never used, so it is not a parameter.
- Rows are values in the store's maps. Updating a row reassigns its map entry. Aliasing between in-memory copies of the same row is not modelled.
- Engine.TicketStore.ReleaseEventBookings: visits bookings in id order and re-tests each booking's status. The source instead iterates a query of the event's booked bookings. The two have the same effect, because each pass changes only its own booking.
