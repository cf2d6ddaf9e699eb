/** Invariants the reservation service keeps over its world, and properties relating its operations. */
module ServiceProperties {
  import opened Results
  import opened Reservations
  import opened RefundPolicy
  import opened ReservationService

  /** The money on a reservation: the fee is split between what is kept and what is refunded, and
      nothing is refunded while the reservation is still READY_TO_PLAY. */
  predicate Ledger(r: Reservation) {
    && r.value + r.refundValue == BookingFee
    && 0.0 <= r.refundValue <= BookingFee
    && (r.status == ReadyToPlay ==> r.refundValue == 0.0)
  }

  /** A world the service can reach: records are stored under their own id, below the next id, and
      refer to a known guest and to a known schedule whose times they carry. */
  predicate Valid(w: World) {
    forall id :: id in w.store ==>
      && w.store[id].id == id && id < w.nextId
      && w.store[id].guest in w.guests
      && w.store[id].schedule in w.schedules && w.store[id].slot == w.schedules[w.store[id].schedule]
      && Ledger(w.store[id])
  }

  /** What one operation may do to one stored record: leave it alone, or move it out of
      READY_TO_PLAY for good, on the same booking, subtracting the refund from the value once. */
  predicate Step(before: Reservation, after: Reservation) {
    || before == after
    || (&& before.status == ReadyToPlay && after.status != ReadyToPlay
        && SameBooking(before, after)
        && after.value == before.value - after.refundValue)
  }

  /** `w'` follows `w`: no record disappears, each takes at most one step, new records sit under
      ids handed out in between, and guests and schedules are untouched. */
  predicate Evolves(w: World, w': World) {
    && w'.guests == w.guests && w'.schedules == w.schedules
    && w.nextId <= w'.nextId
    && (forall id :: id in w.store ==> id in w'.store && Step(w.store[id], w'.store[id]))
    && (forall id :: id in w'.store && id !in w.store ==> w.nextId <= id < w'.nextId)
  }

  /** Steps compose: a record that has left READY_TO_PLAY never changes again. */
  lemma EvolvesTransitive(w1: World, w2: World, w3: World)
    requires Evolves(w1, w2) && Evolves(w2, w3)
    ensures Evolves(w1, w3)
  {
  }

  /** Booking into a valid world uses an id no record has and keeps the world valid. */
  lemma BookKeepsValid(w: World, guest: int, schedule: int)
    requires Valid(w)
    ensures Book(w, guest, schedule).Success? ==>
      var (r, w') := Book(w, guest, schedule).value;
      r.id !in w.store && |w'.store| == |w.store| + 1 && Valid(w') && Evolves(w, w')
  {
  }

  /** A schedule that already holds a READY_TO_PLAY reservation can be booked again: both
      reservations then stand on it side by side. */
  lemma BookIgnoresExistingBooking(w: World, guest: int, id: int)
    requires Valid(w)
    requires id in w.store && w.store[id].status == ReadyToPlay
    requires guest in w.guests
    ensures Book(w, guest, w.store[id].schedule).Success?
    ensures
      var (r, w') := Book(w, guest, w.store[id].schedule).value;
      && r.id != id && r.schedule == w.store[id].schedule
      && w'.store[id] == w.store[id] && w'.store[r.id] == r
  {
  }

  /** Cancelling in a valid world keeps it valid, and the refund is exactly what leaves the
      reservation's value. */
  lemma CancelKeepsValid(w: World, id: int, now: int)
    requires Valid(w)
    ensures Cancel(w, id, now).Success? ==>
      var (c, w') := Cancel(w, id, now).value;
      && Valid(w') && Evolves(w, w')
      && c.value + c.refundValue == BookingFee
      && w'.store[id] == c
  {
  }

  /** Cancelling a reservation that is CANCELLED, RESCHEDULED or NOT_SHOW_UP fails and reports that
      very status, whatever the clock says. */
  lemma CancelInactiveReportsStatus(w: World, id: int, now: int, s: Status)
    requires s in {Cancelled, Rescheduled, NotShowUp}
    requires id in w.store && w.store[id].status == s
    ensures Cancel(w, id, now) == Failure(Inactive(s))
    ensures Reschedule(w, id, w.store[id].schedule, now) == Failure(Inactive(s))
  {
  }

  /** The cancellation scenarios with the 10 fee at exact gaps, with no clock lag: the refund for a
      start 25, 13, 3 and 1 hours and 30 seconds ahead, and the value the reservation keeps. Exactly
      one hour ahead still earns the quarter tier; the service's own unit test reads the clock again
      a moment later, which the lagged rows of `RefundPolicy.ServiceTestRows` cover. */
  lemma CancelFeeScenarios(w: World, id: int, now: int)
    requires Valid(w)
    requires id in w.store && w.store[id].status == ReadyToPlay && now <= w.store[id].slot.start
    ensures Cancel(w, id, now).Success?
    ensures
      var c := Cancel(w, id, now).value.0;
      var gap := w.store[id].slot.start - now;
      && c.status == Cancelled
      && (gap == 25 * SecondsPerHour ==> c.refundValue == 10.0 && c.value == 0.0)
      && (gap == 13 * SecondsPerHour ==> c.refundValue == 7.5 && c.value == 2.5)
      && (gap == 3 * SecondsPerHour ==> c.refundValue == 5.0 && c.value == 5.0)
      && (gap == SecondsPerHour ==> c.refundValue == 2.5 && c.value == 7.5)
      && (gap == 30 ==> c.refundValue == 0.0 && c.value == 10.0)
  {
  }

  /** Rescheduling in a valid world never fails for a missing guest, keeps the world valid, and
      leaves the old record RESCHEDULED on its own schedule with a new READY_TO_PLAY record for the
      same guest on the target schedule. */
  lemma RescheduleKeepsValid(w: World, prevId: int, scheduleId: int, now: int)
    requires Valid(w)
    ensures Reschedule(w, prevId, scheduleId, now) != Failure(NotFound(GuestEntity))
    ensures Reschedule(w, prevId, scheduleId, now).Success? <==>
      prevId in w.store && ValidateCancellation(w.store[prevId], now) == None && scheduleId in w.schedules
    ensures Reschedule(w, prevId, scheduleId, now).Success? ==>
      var prev := w.store[prevId];
      var (v, w') := Reschedule(w, prevId, scheduleId, now).value;
      var n := w'.store[w.nextId];
      && Valid(w') && Evolves(w, w')
      && ClosedAt(prev, w'.store[prevId], Rescheduled, now)
      && w'.store[prevId].schedule == prev.schedule
      && n.status == ReadyToPlay && n.guest == prev.guest && n.schedule == scheduleId
      && n.value == BookingFee && n.refundValue == 0.0
      && w'.store.Keys == w.store.Keys + {w.nextId}
      && (prev.schedule != scheduleId ==> v == View(n, Some(w'.store[prevId])))
      && (prev.schedule == scheduleId ==> v == View(prev, None))
  {
  }

  /** Rescheduling a cancellable reservation onto the schedule it already holds is not a no-op: the
      call succeeds and answers with the untouched record, yet the record is now RESCHEDULED, a
      second reservation exists on the same schedule, and repeating the call fails because the
      record is no longer READY_TO_PLAY. */
  lemma RescheduleOntoOwnSchedule(w: World, prevId: int, now: int)
    requires Valid(w)
    requires prevId in w.store
    requires w.store[prevId].status == ReadyToPlay && now <= w.store[prevId].slot.start
    ensures Reschedule(w, prevId, w.store[prevId].schedule, now).Success?
    ensures
      var s := w.store[prevId].schedule;
      var (v, w') := Reschedule(w, prevId, s, now).value;
      && v == View(w.store[prevId], None)
      && w'.store[prevId].status == Rescheduled
      && w'.store[w.nextId].schedule == s && w'.store[w.nextId].status == ReadyToPlay
      && Reschedule(w', prevId, s, now) == Failure(Inactive(Rescheduled))
  {
  }

  /** The reschedule scenario with the 10 fee and a start 25 hours ahead: the old record keeps
      nothing and refunds everything, and the new one is a fresh full-fee booking linked back to it. */
  lemma RescheduleFullRefundScenario(w: World, a: int, b: int, now: int)
    requires Valid(w)
    requires a in w.store && w.store[a].status == ReadyToPlay
    requires w.store[a].slot.start == now + 25 * SecondsPerHour
    requires b in w.schedules && b != w.store[a].schedule
    ensures Reschedule(w, a, b, now).Success?
    ensures
      var (v, w') := Reschedule(w, a, b, now).value;
      && w'.store[a].status == Rescheduled && w'.store[a].value == 0.0 && w'.store[a].refundValue == 10.0
      && v.reservation.status == ReadyToPlay && v.reservation.value == 10.0 && v.reservation.schedule == b
      && v.previous == Some(w'.store[a])
  {
  }

  /** The sweep keeps a valid world valid and moves records only along allowed steps. */
  lemma SweepKeepsValid(w: World, now: int)
    requires Valid(w)
    ensures Valid(w.(store := SweptStore(w.store, now)))
    ensures Evolves(w, w.(store := SweptStore(w.store, now)))
  {
  }

  /** Sweeping twice with the same clock changes nothing more, and the second query selects only
      READY_TO_PLAY records whose schedule ends exactly now: the query is inclusive but the
      transition needs the end to be strictly past. */
  lemma SweepTwice(store: map<int, Reservation>, now: int)
    ensures SweptStore(SweptStore(store, now), now) == SweptStore(store, now)
    ensures NoShowCandidates(SweptStore(store, now), now) ==
      set id | id in store && store[id].status == ReadyToPlay && store[id].slot.end == now
  {
    var once := SweptStore(store, now);
    forall id | id in once
      ensures SweptStore(once, now)[id] == once[id]
    {
      assert NoShowSettled(once[id], now);
    }
    assert SweptStore(once, now) == once;
    forall id | id in store
      ensures id in NoShowCandidates(once, now) <==> store[id].status == ReadyToPlay && store[id].slot.end == now
    {
      assert once[id] == CancelNotShowUp(store[id], now);
    }
  }

  /** After a sweep no READY_TO_PLAY record has a schedule that ended before now, and the records
      the sweep did change are NOT_SHOW_UP with their whole fee kept. */
  lemma SweepClearsOverdue(w: World, now: int)
    requires Valid(w)
    ensures forall id :: id in SweptStore(w.store, now) ==> NoShowSettled(SweptStore(w.store, now)[id], now)
    ensures forall id :: id in w.store && SweptStore(w.store, now)[id] != w.store[id] ==>
      SweptStore(w.store, now)[id].status == NotShowUp && SweptStore(w.store, now)[id].value == BookingFee
  {
  }
}
