/** The reservation record and the transitions it performs on itself. */
module Reservations {

  /** The four reservation statuses; READY_TO_PLAY is the only one a reservation ever leaves. */
  datatype Status = ReadyToPlay | Cancelled | Rescheduled | NotShowUp

  /** The start and end of a schedule, in seconds on one clock. */
  datatype Slot = Slot(start: int, end: int)

  /** One guest's claim on one schedule. The record keeps the schedule's id and its times, as the
      persistent entity keeps a reference to the schedule itself. Money is exact (`real`). */
  datatype Reservation = Reservation(
    id: int,
    guest: int,
    schedule: int,
    slot: Slot,
    value: real,
    refundValue: real,
    status: Status)

  /** The two records describe the same booking: same id, guest and schedule. */
  predicate SameBooking(a: Reservation, b: Reservation) {
    a.id == b.id && a.guest == b.guest && a.schedule == b.schedule && a.slot == b.slot
  }

  /** A freshly built reservation: the builder defaults status and refund, the caller supplies the rest. */
  function NewReservation(id: int, guest: int, schedule: int, slot: Slot, value: real): (r: Reservation)
    ensures r.status == ReadyToPlay
    ensures r.refundValue == 0.0
    ensures r.id == id && r.guest == guest && r.schedule == schedule && r.slot == slot && r.value == value
  {
    Reservation(id, guest, schedule, slot, value, 0.0, ReadyToPlay)
  }

  /** The reservation is past the point where the no-show transition would change it. */
  predicate NoShowSettled(r: Reservation, now: int) {
    !(r.status == ReadyToPlay && r.slot.end < now)
  }

  /** The no-show transition: a reservation still READY_TO_PLAY whose schedule ended strictly before
      `now` becomes NOT_SHOW_UP with no refund; any other reservation is returned as it is. */
  function CancelNotShowUp(r: Reservation, now: int): (r': Reservation)
    ensures !NoShowSettled(r, now) ==> r'.status == NotShowUp && r'.refundValue == 0.0
    ensures NoShowSettled(r, now) ==> r' == r
    ensures NoShowSettled(r', now)
    ensures SameBooking(r, r') && r'.value == r.value
  {
    if r.status == ReadyToPlay && r.slot.end < now then
      r.(status := NotShowUp, refundValue := 0.0)
    else
      r
  }

  /** Applying the no-show transition a second time with the same clock changes nothing. */
  lemma CancelNotShowUpIdempotent(r: Reservation, now: int)
    ensures CancelNotShowUp(CancelNotShowUp(r, now), now) == CancelNotShowUp(r, now)
  {
  }

  /** Closes a reservation with the given status, handing back `refund` out of its value. */
  function Settle(r: Reservation, refund: real, status: Status): (s: Reservation)
    ensures s.status == status
    ensures s.refundValue == refund
    ensures s.value + s.refundValue == r.value
    ensures SameBooking(r, s)
  {
    r.(status := status, value := r.value - refund, refundValue := refund)
  }
}
