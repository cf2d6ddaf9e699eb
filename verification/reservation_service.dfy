/** The reservation service: booking, lookup, cancellation, rescheduling, the no-show sweep and the
    past-reservation report, as pure operations over an immutable world. A failed operation returns
    only its error, so nothing it would have written is ever visible. */
module ReservationService {
  import opened Results
  import opened Reservations
  import opened RefundPolicy

  /** The fixed fee charged for every booking. */
  const BookingFee: real := 10.0

  datatype Entity = ReservationEntity | GuestEntity | ScheduleEntity

  /** The exceptions the service raises: a missing entity, a cancellation of a reservation that is no
      longer READY_TO_PLAY (carrying its status), and one whose schedule has already started
      (carrying the start time). */
  datatype Error = NotFound(entity: Entity) | Inactive(status: Status) | Past(start: int)

  /** The store of reservations by id with the id the next booking receives, the ids of known
      guests, and the schedules by id. */
  datatype World = World(
    store: map<int, Reservation>,
    nextId: int,
    guests: set<int>,
    schedules: map<int, Slot>)

  /** What the service hands back for a reservation: the record, and for a rescheduled booking the
      record it replaced. */
  datatype View = View(reservation: Reservation, previous: Option<Reservation>)

  /** `w'` is `w` with exactly one new READY_TO_PLAY reservation `r` for `guest` on `schedule`,
      stored under a new id. */
  predicate Booked(w: World, guest: int, schedule: int, r: Reservation, w': World)
    requires schedule in w.schedules
  {
    && r.id == w.nextId
    && r.guest == guest && r.schedule == schedule && r.slot == w.schedules[schedule]
    && r.status == ReadyToPlay && r.value == BookingFee && r.refundValue == 0.0
    && w'.store == w.store[r.id := r] && w'.nextId == w.nextId + 1
    && w'.guests == w.guests && w'.schedules == w.schedules
  }

  /** Books `schedule` for `guest`. The guest is resolved before the schedule; nothing checks
      whether the schedule is already booked. */
  function Book(w: World, guest: int, schedule: int): (res: Result<(Reservation, World), Error>)
    ensures guest !in w.guests ==> res == Failure(NotFound(GuestEntity))
    ensures guest in w.guests && schedule !in w.schedules ==> res == Failure(NotFound(ScheduleEntity))
    ensures guest in w.guests && schedule in w.schedules ==>
      res.Success? && Booked(w, guest, schedule, res.value.0, res.value.1)
  {
    if guest !in w.guests then Failure(NotFound(GuestEntity))
    else if schedule !in w.schedules then Failure(NotFound(ScheduleEntity))
    else
      var r := NewReservation(w.nextId, guest, schedule, w.schedules[schedule], BookingFee);
      Success((r, w.(store := w.store[r.id := r], nextId := w.nextId + 1)))
  }

  /** Looks a reservation up by id. */
  function Find(w: World, id: int): (res: Result<Reservation, Error>)
    ensures res.Success? <==> id in w.store
    ensures res.Success? ==> res.value == w.store[id]
    ensures res.Failure? ==> res.error == NotFound(ReservationEntity)
  {
    if id in w.store then Success(w.store[id]) else Failure(NotFound(ReservationEntity))
  }

  /** Checks that `r` may be cancelled at `now`: the status is tested first, then the start time.
      A reservation starting exactly at `now` may still be cancelled. */
  function ValidateCancellation(r: Reservation, now: int): (e: Option<Error>)
    ensures e == None <==> r.status == ReadyToPlay && now <= r.slot.start
    ensures r.status != ReadyToPlay ==> e == Some(Inactive(r.status))
    ensures r.status == ReadyToPlay && r.slot.start < now ==> e == Some(Past(r.slot.start))
  {
    if r.status != ReadyToPlay then Some(Inactive(r.status))
    else if r.slot.start < now then Some(Past(r.slot.start))
    else None
  }

  /** `c` is `r` closed with `status`, refunding what the policy grants at `now`. */
  predicate ClosedAt(r: Reservation, c: Reservation, status: Status, now: int) {
    && c.status == status
    && c.refundValue == RefundValue(r.value, r.slot.start, now)
    && c.value + c.refundValue == r.value
    && SameBooking(r, c)
  }

  /** Cancels reservation `id` at `now`, refunding by the policy's tiers. */
  function Cancel(w: World, id: int, now: int): (res: Result<(Reservation, World), Error>)
    ensures id !in w.store ==> res == Failure(NotFound(ReservationEntity))
    ensures id in w.store && w.store[id].status != ReadyToPlay ==>
      res == Failure(Inactive(w.store[id].status))
    ensures id in w.store && w.store[id].status == ReadyToPlay && w.store[id].slot.start < now ==>
      res == Failure(Past(w.store[id].slot.start))
    ensures res.Success? <==> id in w.store && ValidateCancellation(w.store[id], now) == None
    ensures res.Success? ==>
      var (c, w') := res.value;
      && ClosedAt(w.store[id], c, Cancelled, now)
      && (0.0 <= w.store[id].value ==> 0.0 <= c.refundValue <= w.store[id].value)
      && (w.store[id].slot.start == now ==> c.refundValue == 0.0)
      && w' == w.(store := w.store[id := c])
  {
    if id !in w.store then Failure(NotFound(ReservationEntity))
    else
      var r := w.store[id];
      match ValidateCancellation(r, now)
      case Some(e) => Failure(e)
      case None =>
        var c := Settle(r, RefundValue(r.value, r.slot.start, now), Cancelled);
        Success((c, w.(store := w.store[id := c])))
  }

  /** The cancel-and-rebook half of rescheduling: cancels `prevId`, marks it RESCHEDULED, then books
      its guest on `scheduleId` and links the new record back to the old one. */
  function MoveReservation(w: World, prevId: int, scheduleId: int, now: int): (res: Result<(View, World), Error>)
    ensures res.Success? <==>
      && prevId in w.store && ValidateCancellation(w.store[prevId], now) == None
      && w.store[prevId].guest in w.guests && scheduleId in w.schedules
    ensures res.Success? ==>
      var prev := w.store[prevId];
      var (v, w') := res.value;
      && v.previous.Some?
      && ClosedAt(prev, v.previous.value, Rescheduled, now)
      && Booked(w.(store := w.store[prevId := v.previous.value]), prev.guest, scheduleId, v.reservation, w')
  {
    var cancelled :- Cancel(w, prevId, now);
    var p := cancelled.0.(status := Rescheduled);
    var w2 := cancelled.1.(store := cancelled.1.store[prevId := p]);
    var booked :- Book(w2, p.guest, scheduleId);
    Success((View(booked.0, Some(p)), booked.1))
  }

  /** Reschedules `prevId` onto `scheduleId`. The lookup of the reservation on the target schedule
      happens first, but its fallback, the cancel-and-rebook, is evaluated whether or not the lookup
      finds it: when the reservation is already on the target schedule the call still cancels and
      rebooks (or fails), and answers with the record as it was before the call. */
  function Reschedule(w: World, prevId: int, scheduleId: int, now: int): (res: Result<(View, World), Error>)
    ensures prevId !in w.store ==> res == Failure(NotFound(ReservationEntity))
    ensures prevId in w.store && w.store[prevId].status != ReadyToPlay ==>
      res == Failure(Inactive(w.store[prevId].status))
    ensures prevId in w.store && w.store[prevId].status == ReadyToPlay && w.store[prevId].slot.start < now ==>
      res == Failure(Past(w.store[prevId].slot.start))
    ensures prevId in w.store && ValidateCancellation(w.store[prevId], now) == None ==>
      && (w.store[prevId].guest !in w.guests ==> res == Failure(NotFound(GuestEntity)))
      && (w.store[prevId].guest in w.guests && scheduleId !in w.schedules ==>
            res == Failure(NotFound(ScheduleEntity)))
    ensures res.Success? <==> MoveReservation(w, prevId, scheduleId, now).Success?
    ensures res.Success? ==>
      var prev := w.store[prevId];
      var (v, w') := res.value;
      var moved := MoveReservation(w, prevId, scheduleId, now).value;
      && w' == moved.1
      && (prev.schedule == scheduleId ==> v == View(prev, None))
      && (prev.schedule != scheduleId ==> v == moved.0)
  {
    var onTarget := prevId in w.store && w.store[prevId].schedule == scheduleId;
    var moved :- MoveReservation(w, prevId, scheduleId, now);
    if onTarget then Success((View(w.store[prevId], None), moved.1)) else Success(moved)
  }

  /** The reservations the no-show query selects: READY_TO_PLAY ones whose schedule ended at or
      before `now`. */
  function NoShowCandidates(store: map<int, Reservation>, now: int): set<int> {
    set id | id in store && store[id].status == ReadyToPlay && store[id].slot.end <= now
  }

  /** The store after every record has been through the no-show transition. */
  function SweptStore(store: map<int, Reservation>, now: int): map<int, Reservation> {
    map id | id in store :: CancelNotShowUp(store[id], now)
  }

  /** A non-empty set of ids has a member to pick. */
  lemma NonEmptyHasMember(s: set<int>)
    requires s != {}
    ensures exists id :: id in s
  {
    if forall id :: id !in s {
      assert false;
    }
  }

  /** The no-show sweep: selects the candidates, applies the no-show transition to each and saves it,
      and returns the selected records as saved, by id. */
  method SweepNoShows(w: World, now: int) returns (swept: map<int, Reservation>, w': World)
    ensures swept.Keys == NoShowCandidates(w.store, now)
    ensures forall id :: id in swept ==> swept[id] == CancelNotShowUp(w.store[id], now)
    ensures w'.store == SweptStore(w.store, now)
    ensures w'.nextId == w.nextId && w'.guests == w.guests && w'.schedules == w.schedules
  {
    var candidates := NoShowCandidates(w.store, now);
    var remaining := candidates;
    var store := w.store;
    swept := map[];
    while remaining != {}
      invariant remaining <= candidates
      invariant swept.Keys == candidates - remaining
      invariant store.Keys == w.store.Keys
      invariant forall id :: id in store ==>
        store[id] == (if id in swept then CancelNotShowUp(w.store[id], now) else w.store[id])
      invariant forall id :: id in swept ==> swept[id] == store[id]
      decreases remaining
    {
      NonEmptyHasMember(remaining);
      var id :| id in remaining;
      var r := CancelNotShowUp(store[id], now);
      store := store[id := r];
      swept := swept[id := r];
      remaining := remaining - {id};
    }
    assert forall id :: id in store ==> store[id] == CancelNotShowUp(w.store[id], now);
    w' := w.(store := store);
  }

  /** The past-reservation report: every reservation whose schedule ended at or before `now`,
      whatever its status. It writes nothing. */
  method PastReservations(w: World, now: int) returns (past: map<int, Reservation>)
    ensures past.Keys == set id | id in w.store && w.store[id].slot.end <= now
    ensures forall id :: id in past ==> past[id] == w.store[id]
  {
    var remaining := w.store.Keys;
    past := map[];
    while remaining != {}
      invariant remaining <= w.store.Keys
      invariant past.Keys == set id | id in w.store.Keys - remaining && w.store[id].slot.end <= now
      invariant forall id :: id in past ==> past[id] == w.store[id]
      decreases remaining
    {
      NonEmptyHasMember(remaining);
      var id :| id in remaining;
      if w.store[id].slot.end <= now {
        past := past[id := w.store[id]];
      }
      remaining := remaining - {id};
    }
  }
}
