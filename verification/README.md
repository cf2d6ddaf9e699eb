# Tennis-court reservation engine, modelled in Dafny

This project models the reservation lifecycle and refund engine of a tennis-court booking
service: `ReservationService` and the `Reservation` entity. The service books a schedule for a
guest at a fixed fee of 10, cancels a reservation with a refund that depends on how many whole
hours remain before the schedule starts, reschedules a reservation by cancelling it and booking
the guest on another schedule, sweeps ended `READY_TO_PLAY` reservations into `NOT_SHOW_UP`, and
reports past reservations.

The model is functional. A `World` holds the reservation store (`map<int, Reservation>` plus the
next id to hand out), the set of known guest ids, and the schedules by id with their start and end
times in seconds. Each operation takes the world and an explicit clock reading `now`. It returns a
`Result` holding either the value and the new world, or the error the service throws:
`NotFound(entity)`, `Inactive(status)` or `Past(start)`. A failed operation returns no world, so a
failure never writes anything. Money is `real`, which is exact like the service's decimals.

Modules:

- `Results` (results.dfy): `Option` and `Result`.
- `Reservations` (reservation.dfy): status, record, builder defaults, the no-show transition, and the
  closing update that subtracts a refund.
- `RefundPolicy` (refund_policy.dfy): whole hours between two instants, truncated toward zero, and
  the tiered refund.
- `ReservationService` (reservation_service.dfy): book, find, validate and cancel, the two halves of
  reschedule, and the no-show sweep and past report as loops checked against reference definitions.
- `ServiceProperties` (service_properties.dfy): the invariant every reachable world keeps, the
  one-way status steps, and the lemmas that relate the operations to one another.

Three behaviours of the code are easy to misread. The model follows the code in each:

- **Quarter tier.** The last refund test, `hours * 60 >= 1`, reads like a check for one minute, but
  `hours` is already a whole-hour count. The 25% tier therefore needs at least one whole hour, and
  any shorter gap refunds 0 (`RefundPolicy.HalfHourRefundsNothing`).
- **Reschedule onto the same schedule.** The lookup of the reservation on the target schedule looks
  like a shortcut, but the cancel-and-rebook is the argument of `Optional.orElse`, so Java evaluates
  it eagerly and it always runs. A cancellable record is closed as RESCHEDULED and a second
  reservation is booked on the same schedule. The answer is the record as it was before the call,
  and repeating the call fails with `Inactive(RESCHEDULED)`
  (`ServiceProperties.RescheduleOntoOwnSchedule`).
- **No-show boundary.** The no-show query selects schedules that ended at or before now (`<=`), but
  the transition on the record uses the strict `isBefore`. With one clock reading, a reservation
  ending exactly now is selected, returned unchanged, and selected again by the next sweep
  (`ServiceProperties.SweepTwice`).

## Model

| member | source | states |
|---|---|---|
| `Reservations.NewReservation` | src/main/java/com/tenniscourts/reservations/Reservation.java:46-51 | a newly built reservation is READY_TO_PLAY with refund 0 whatever id, guest, schedule and value it is given |
| `Reservations.CancelNotShowUp` | src/main/java/com/tenniscourts/reservations/Reservation.java:53-63 | a READY_TO_PLAY record whose schedule ended strictly before now becomes NOT_SHOW_UP with refund 0; every other record (end equal to now, any other status) comes back unchanged; id, guest, schedule and value never change, so the whole fee is forfeited; the result is always settled |
| `Reservations.CancelNotShowUpIdempotent` | src/main/java/com/tenniscourts/reservations/Reservation.java:54-58 | applying the no-show transition twice with the same clock equals applying it once |
| `Reservations.Settle` | src/main/java/com/tenniscourts/reservations/ReservationService.java:139-145 | closing a record sets the status and the refund, and the new value plus the refund equals the old value; the booking itself is unchanged |
| `RefundPolicy.HoursBetween` | src/main/java/com/tenniscourts/reservations/ReservationService.java:158 | the whole-hour count h brackets the gap: h hours fit in it and h+1 do not, rounding toward zero in both directions |
| `RefundPolicy.RefundValue` | src/main/java/com/tenniscourts/reservations/ReservationService.java:157-177 | in terms of seconds to the start: full value from 24h, 3/4 from 12h, 1/2 from 2h, 1/4 from 1h, 0 below one hour or in the past, each threshold inclusive; for a non-negative value the refund lies between 0 and the value |
| `RefundPolicy.RefundMonotone` | src/main/java/com/tenniscourts/reservations/ReservationService.java:157-177 | cancelling earlier never refunds less than cancelling later |
| `RefundPolicy.HalfHourRefundsNothing` | src/main/java/com/tenniscourts/reservations/ReservationService.java:172-176 | a cancellation thirty minutes before the start refunds 0, because the quarter tier counts whole hours |
| `RefundPolicy.ServiceTestRows` | src/test/java/com/tenniscourts/reservations/ReservationServiceTest.java:105-141 | with fee 10 and a clock that has moved on by up to an hour, starts 25, 13, 3, 2 and 1 hours ahead refund 10, 7.5, 5, 2.5 and 0 |
| `ReservationService.Book` | src/main/java/com/tenniscourts/reservations/ReservationService.java:38-49 | a missing guest gives NotFound(guest) before the schedule is looked at; a missing schedule then gives NotFound(schedule); otherwise exactly one record is added under the next id, READY_TO_PLAY, value 10, refund 0, for that guest on that schedule with its times |
| `ReservationService.Find` | src/main/java/com/tenniscourts/reservations/ReservationService.java:51-57 | the lookup succeeds exactly when the id is stored and then returns that record; otherwise NotFound(reservation) |
| `ReservationService.ValidateCancellation` | src/main/java/com/tenniscourts/reservations/ReservationService.java:147-155 | a record passes exactly when it is READY_TO_PLAY and its start is not before now; the status is checked first and reported as Inactive(status), then a past start as Past(start) |
| `ReservationService.Cancel` | src/main/java/com/tenniscourts/reservations/ReservationService.java:113-124 | errors in order NotFound, Inactive(status), Past(start); success exactly when validation passes, and then the record is CANCELLED with the policy's refund, value plus refund equals the old value, the refund lies between 0 and the value, a start equal to now refunds 0, and only that record changes |
| `ReservationService.MoveReservation` | src/main/java/com/tenniscourts/reservations/ReservationService.java:126-137 | succeeds exactly when the old record can be cancelled and its guest and the target schedule exist; the old record is closed as RESCHEDULED with cancel arithmetic, then a booking for its guest on the target is added, and the answer links the new record to the old one's final state |
| `ReservationService.Reschedule` | src/main/java/com/tenniscourts/reservations/ReservationService.java:82-93 | errors in the order NotFound(reservation), Inactive, Past, NotFound(guest), NotFound(schedule); it succeeds exactly when the cancel-and-rebook succeeds, even when the record is already on the target schedule; the new world is always the one the cancel-and-rebook produces, and the answer is the pre-call record when it was already on the target schedule, the new linked booking otherwise |
| `ReservationService.SweepNoShows` | src/main/java/com/tenniscourts/reservations/ReservationService.java:67-76 | the returned ids are exactly the READY_TO_PLAY records whose schedule ended at or before now, each as the no-show transition leaves it, and the new store is every record passed through that transition |
| `ReservationService.PastReservations` | src/main/java/com/tenniscourts/reservations/ReservationService.java:59-65 | the report holds exactly the records whose schedule ended at or before now, of any status, as stored |
| `ServiceProperties.EvolvesTransitive` | src/main/java/com/tenniscourts/reservations/ReservationService.java:147-150 | steps compose, so a record that has left READY_TO_PLAY never changes again over any run of operations |
| `ServiceProperties.BookKeepsValid` | src/main/java/com/tenniscourts/reservations/ReservationService.java:38-49 | in a valid world a booking takes an id no record has, grows the store by one, keeps the world valid and changes no existing record |
| `ServiceProperties.BookIgnoresExistingBooking` | src/main/java/com/tenniscourts/reservations/ReservationService.java:38-49 | a schedule that already holds a READY_TO_PLAY reservation is booked again, and both reservations then stand on it |
| `ServiceProperties.CancelKeepsValid` | src/main/java/com/tenniscourts/reservations/ReservationService.java:139-145 | a successful cancellation keeps the world valid, takes one allowed step, and value plus refund stays equal to the fee |
| `ServiceProperties.CancelInactiveReportsStatus` | src/test/java/com/tenniscourts/reservations/ReservationServiceTest.java:72-85 | cancelling or rescheduling a CANCELLED, RESCHEDULED or NOT_SHOW_UP record fails with Inactive carrying exactly that status |
| `ServiceProperties.CancelFeeScenarios` | src/main/java/com/tenniscourts/reservations/ReservationService.java:157-177 | with fee 10 and no clock lag, a start 25h, 13h, 3h, 1h or 30s ahead leaves refund/value at 10/0, 7.5/2.5, 5/5, 2.5/7.5 and 0/10, status CANCELLED |
| `ServiceProperties.RescheduleKeepsValid` | src/main/java/com/tenniscourts/reservations/ReservationService.java:126-137 | in a valid world a reschedule never reports a missing guest, and succeeds exactly when the record exists, is READY_TO_PLAY, has not started and the target schedule exists; on success the old record is RESCHEDULED on its own schedule with cancel arithmetic, one new READY_TO_PLAY full-fee record for the same guest on the target is added, the world stays valid, and the answer links new to old |
| `ServiceProperties.RescheduleOntoOwnSchedule` | src/main/java/com/tenniscourts/reservations/ReservationService.java:88-91 | rescheduling a READY_TO_PLAY record that has not started onto its current schedule succeeds, answers with the untouched record but still marks it RESCHEDULED and books a second reservation on that schedule; repeating it fails with Inactive(RESCHEDULED) |
| `ServiceProperties.RescheduleFullRefundScenario` | src/test/java/com/tenniscourts/reservations/ReservationServiceIntegrationTest.java:319-334 | rescheduling a reservation 25h ahead leaves it RESCHEDULED with value 0 and refund 10, and the answer is a READY_TO_PLAY record of value 10 on the target schedule whose previous record is the old one's final state |
| `ServiceProperties.SweepKeepsValid` | src/main/java/com/tenniscourts/reservations/Reservation.java:53-63 | the swept store keeps the world valid and moves each record by at most one allowed step |
| `ServiceProperties.SweepTwice` | src/main/java/com/tenniscourts/reservations/ReservationService.java:67-76 | a second sweep with the same clock changes nothing, and its query selects only the READY_TO_PLAY records ending exactly now |
| `ServiceProperties.SweepClearsOverdue` | src/test/java/com/tenniscourts/reservations/ReservationServiceIntegrationTest.java:293-305 | after a sweep no READY_TO_PLAY record ended before now, and each record the sweep changed is NOT_SHOW_UP keeping the whole fee |

## Left out

- HTTP controllers, request and response mapping, and the JPA wiring of guests, courts and
  schedules: they route and copy fields. A response is modelled as the record plus the optional
  record it replaced.
- The schedule service and the guest and court CRUD: they are thin repository wrappers. Guests are a
  set of ids and schedules a map to their times.
- Transactions, save and flush: each operation is all-or-nothing on an immutable world. The
  reschedule is transactional, and booking and cancelling write once after all their checks. The
  no-show sweep has no transaction and saves each selected record separately. Store failures are not
  modelled, so a sweep that stops part-way is left out.
- The system clock: every operation takes one `now`. The service reads the clock several times per
  call, which mostly shifts results by fractions of a second. One outcome depends on it: the no-show
  query and the transition on each record read the clock separately, so in the service a record
  ending exactly at the query's instant is usually past the transition's later reading and becomes
  NOT_SHOW_UP. With the single reading here it stays READY_TO_PLAY.
- The order of the lists returned by the no-show sweep and the past report: the repository query
  does not fix it. Both are modelled as maps from id to record.
- Decimal scale: amounts are compared as exact values, so trailing zeros do not matter.
- Integer width: reservation ids and times are unbounded integers. The service's 64-bit ids and
  date-times never wrap in practice.
