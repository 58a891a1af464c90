/**
  The capacity invariant (`CapacityOk`: on every trip, the seats of
  non-cancelled bookings are at most the trip's `availableSeats`) and which
  actions keep it. Two actions as written can break it; for each, a concrete
  run shows how, and a corrected action is proved to keep it.
*/
module Capacity {
  import opened Wrappers
  import opened Store
  import opened Bookings
  import opened Trips

  /** An accepted `createBooking` stays within capacity, whatever the seat count's sign. */
  lemma CreateKeepsCapacity(s: Store, session: Option<UserId>, now: int, req: BookingRequest, freshId: BookingId)
    requires CapacityOk(s)
    ensures CapacityOk(CreateBooking(s, session, now, req, freshId).store)
  {
    var r := CreateBooking(s, session, now, req, freshId);
    if r.outcome.Success? {
      forall t | t in r.store.trips
        ensures SumSeats(r.store.bookings, t, NotCancelled) <= r.store.trips[t].availableSeats
      {
        SumAppend(s.bookings, r.outcome.value, t, NotCancelled);
      }
    }
  }

  /** Giving booking `i` status `st` moves each trip's held seats by the change in its share. */
  lemma StatusChangeSum(s: Store, s': Store, i: nat, st: BookingStatus, t: TripId)
    requires OnlyStatusChanged(s, s', i, st)
    ensures SumSeats(s'.bookings, t, NotCancelled)
            == SumSeats(s.bookings, t, NotCancelled) - Share(s.bookings[i], t, NotCancelled)
               + Share(s.bookings[i].(status := st), t, NotCancelled)
  {
    assert s'.bookings == s.bookings[i := s.bookings[i].(status := st)];
    SumUpdate(s.bookings, i, s.bookings[i].(status := st), t, NotCancelled);
  }

  /** Cancelling releases seats, provided no booking holds a negative number of them. */
  lemma CancelKeepsCapacity(s: Store, bookingId: BookingId, userId: UserId, isDriver: bool)
    requires CapacityOk(s) && NonNegativeSeats(s.bookings)
    ensures CapacityOk(CancelBooking(s, bookingId, userId, isDriver).store)
  {
    var r := CancelBooking(s, bookingId, userId, isDriver);
    if r.outcome.Success? {
      var i := FindBooking(s.bookings, bookingId).value;
      forall t | t in r.store.trips
        ensures SumSeats(r.store.bookings, t, NotCancelled) <= r.store.trips[t].availableSeats
      {
        StatusChangeSum(s, r.store, i, Cancelled, t);
      }
    }
  }

  /** Confirming a booking that is not CANCELLED leaves every trip's held seats unchanged. */
  lemma ConfirmLiveKeepsCapacity(s: Store, bookingId: BookingId, driverId: UserId)
    requires CapacityOk(s)
    requires FindBooking(s.bookings, bookingId).Some? ==>
               s.bookings[FindBooking(s.bookings, bookingId).value].status != Cancelled
    ensures CapacityOk(ConfirmBooking(s, bookingId, driverId).store)
  {
    var r := ConfirmBooking(s, bookingId, driverId);
    if r.outcome.Success? {
      var i := FindBooking(s.bookings, bookingId).value;
      forall t | t in r.store.trips
        ensures SumSeats(r.store.bookings, t, NotCancelled) <= r.store.trips[t].availableSeats
      {
        StatusChangeSum(s, r.store, i, Confirmed, t);
      }
    }
  }

  /** Removing a trip removes its constraint and touches no other. */
  lemma DeleteTripKeepsCapacity(s: Store, tripId: TripId, userId: UserId)
    requires CapacityOk(s)
    ensures CapacityOk(DeleteTrip(s, tripId, userId).store)
  {
  }

  const DriverD: UserId := "d"
  const TripT: TripId := "t"

  function OneTrip(seats: int, bookings: seq<Booking>): Store {
    Store(map[DriverD := User("D", "D", true), "p" := User("P", "P", false), "q" := User("Q", "Q", false)],
          map[TripT := Trip(DriverD, "A", "B", "0,0", "1,1", 10, "08:00", seats, 5, None, TripActive)],
          bookings)
  }

  /** Held seats of a two-booking list. */
  lemma SumOfTwo(a: Booking, b: Booking, t: TripId, p: Policy)
    ensures SumSeats([a, b], t, p) == Share(a, t, p) + Share(b, t, p)
  {
    assert [a, b][..1] == [a];
    assert [a][..0] == [];
    assert SumSeats([a], t, p) == Share(a, t, p);
  }

  /**
    A CANCELLED booking confirmed again counts against capacity once more,
    with nothing checking room for it: a full one-seat trip ends up with two.
  */
  lemma ConfirmCancelledOverbooks()
    ensures var s := OneTrip(1, [Booking("b1", TripT, "p", 1, 5, Cancelled), Booking("b2", TripT, "q", 1, 5, Pending)]);
            var r := ConfirmBooking(s, "b1", DriverD);
            && CapacityOk(s) && r.outcome.Success? && !CapacityOk(r.store)
            && SumSeats(r.store.bookings, TripT, NotCancelled) == 2
  {
    var b1 := Booking("b1", TripT, "p", 1, 5, Cancelled);
    var b2 := Booking("b2", TripT, "q", 1, 5, Pending);
    var s := OneTrip(1, [b1, b2]);
    SumOfTwo(b1, b2, TripT, NotCancelled);
    assert FindBooking(s.bookings, "b1") == Some(0);
    var r := ConfirmBooking(s, "b1", DriverD);
    assert r.store.bookings == [b1.(status := Confirmed), b2];
    SumOfTwo(b1.(status := Confirmed), b2, TripT, NotCancelled);
  }

  /**
    A negative seat request passes the room check and frees room for others;
    cancelling it afterwards leaves a two-seat trip holding five real seats.
  */
  lemma NegativeSeatsOverbook()
    ensures var s0 := OneTrip(2, []);
            var r1 := CreateBooking(s0, Some("p"), 0, BookingRequest(TripT, "p", -3), "b1");
            var r2 := CreateBooking(r1.store, Some("q"), 0, BookingRequest(TripT, "q", 5), "b2");
            var r3 := CancelBooking(r2.store, "b1", "p", false);
            && r1.outcome.Success? && r1.outcome.value.totalPrice == -15
            && r2.outcome.Success? && r3.outcome.Success?
            && CapacityOk(s0) && CapacityOk(r2.store) && !CapacityOk(r3.store)
            && SumSeats(r3.store.bookings, TripT, NotCancelled) == 5
  {
    var s0 := OneTrip(2, []);
    var b1 := Booking("b1", TripT, "p", -3, -15, Pending);
    var b2 := Booking("b2", TripT, "q", 5, 25, Pending);
    var r1 := CreateBooking(s0, Some("p"), 0, BookingRequest(TripT, "p", -3), "b1");
    assert r1.outcome == Success(b1);
    assert r1.store.bookings == [b1];
    SumAppend([], b1, TripT, NotCancelled);
    assert [] + [b1] == [b1];
    assert FindBooking([b1], "b2") == None;
    var r2 := CreateBooking(r1.store, Some("q"), 0, BookingRequest(TripT, "q", 5), "b2");
    assert r2.outcome == Success(b2);
    assert r2.store.bookings == [b1, b2];
    SumOfTwo(b1, b2, TripT, NotCancelled);
    assert FindBooking([b1, b2], "b1") == Some(0);
    var r3 := CancelBooking(r2.store, "b1", "p", false);
    assert r3.store.bookings == [b1.(status := Cancelled), b2];
    SumOfTwo(b1.(status := Cancelled), b2, TripT, NotCancelled);
  }

  /**
    A three-seat trip takes three one-seat bookings, the booking page then
    shows no seat left, and a fourth request is refused for lack of seats.
  */
  lemma ThreeSingleSeatsFillTrip()
    ensures var s0 := OneTrip(3, []);
            var r1 := CreateBooking(s0, Some("p"), 0, BookingRequest(TripT, "p", 1), "b1");
            var r2 := CreateBooking(r1.store, Some("p"), 0, BookingRequest(TripT, "p", 1), "b2");
            var r3 := CreateBooking(r2.store, Some("p"), 0, BookingRequest(TripT, "p", 1), "b3");
            var r4 := CreateBooking(r3.store, Some("p"), 0, BookingRequest(TripT, "p", 1), "b4");
            && r1.outcome.Success? && r2.outcome.Success? && r3.outcome.Success?
            && GetTripForBooking(r3.store, TripT).value.remainingSeats == 0
            && r4.outcome == Failure(NotEnoughSeats)
  {
    var s0 := OneTrip(3, []);
    var b1 := Booking("b1", TripT, "p", 1, 5, Pending);
    var b2 := Booking("b2", TripT, "p", 1, 5, Pending);
    var b3 := Booking("b3", TripT, "p", 1, 5, Pending);
    var r1 := CreateBooking(s0, Some("p"), 0, BookingRequest(TripT, "p", 1), "b1");
    assert r1.store.bookings == [b1];
    SumAppend([], b1, TripT, NotCancelled);
    assert [] + [b1] == [b1];
    assert FindBooking([b1], "b2") == None;
    var r2 := CreateBooking(r1.store, Some("p"), 0, BookingRequest(TripT, "p", 1), "b2");
    assert r2.store.bookings == [b1, b2];
    SumOfTwo(b1, b2, TripT, NotCancelled);
    assert FindBooking([b1, b2], "b3") == None;
    var r3 := CreateBooking(r2.store, Some("p"), 0, BookingRequest(TripT, "p", 1), "b3");
    assert r3.store.bookings == [b1, b2] + [b3];
    SumAppend([b1, b2], b3, TripT, NotCancelled);
    assert r3.store.trips == s0.trips;
    assert SumSeats(r3.store.bookings, TripT, NotCancelled) == 3;
  }

  /** `createBooking` as intended: fewer than one seat is refused before anything is written. */
  function CreateBookingChecked(s: Store, session: Option<UserId>, now: int, req: BookingRequest, freshId: BookingId)
    : (r: Step<Booking>)
    ensures req.seats < 1 ==> r.outcome == Failure(InvalidSeatCount) && r.store == s
    ensures req.seats >= 1 ==> r == CreateBooking(s, session, now, req, freshId)
    ensures r.outcome.Success? ==> r.outcome.value.seats >= 1
  {
    if req.seats < 1 then Refuse(s, InvalidSeatCount) else CreateBooking(s, session, now, req, freshId)
  }

  /**
    `confirmBooking` as intended: only a PENDING booking can be confirmed.
    The source's checks come first (not found, then ownership), so a caller
    who does not own the trip never learns the booking's status.
  */
  function ConfirmPendingOnly(s: Store, bookingId: BookingId, driverId: UserId): (r: Step<Booking>)
    ensures r.outcome.Success? ==>
              && FindBooking(s.bookings, bookingId).Some?
              && s.bookings[FindBooking(s.bookings, bookingId).value].status == Pending
    ensures ConfirmBooking(s, bookingId, driverId).outcome.Failure? ==> r == ConfirmBooking(s, bookingId, driverId)
    ensures ConfirmBooking(s, bookingId, driverId).outcome.Success? ==>
              var b := s.bookings[FindBooking(s.bookings, bookingId).value];
              && (b.status != Pending ==> r.outcome == Failure(NotPending) && r.store == s)
              && (b.status == Pending ==> r == ConfirmBooking(s, bookingId, driverId))
  {
    var first := ConfirmBooking(s, bookingId, driverId);
    if first.outcome.Success? && s.bookings[FindBooking(s.bookings, bookingId).value].status != Pending
    then Refuse(s, NotPending)
    else first
  }

  /** The intended invariant: capacity respected and every booking for at least one seat. */
  ghost predicate Sound(s: Store) {
    CapacityOk(s) && PositiveSeats(s.bookings)
  }

  /** The write actions on bookings and trips, with the two corrections applied. */
  datatype Action =
    | Book(session: Option<UserId>, now: int, req: BookingRequest, freshId: BookingId)
    | Confirm(bookingId: BookingId, driverId: UserId)
    | Cancel(bookingId: BookingId, userId: UserId, isDriver: bool)
    | Remove(tripId: TripId, userId: UserId)

  function Perform(s: Store, a: Action): Store {
    match a
    case Book(session, now, req, freshId) => CreateBookingChecked(s, session, now, req, freshId).store
    case Confirm(bookingId, driverId) => ConfirmPendingOnly(s, bookingId, driverId).store
    case Cancel(bookingId, userId, isDriver) => CancelBooking(s, bookingId, userId, isDriver).store
    case Remove(tripId, userId) => DeleteTrip(s, tripId, userId).store
  }

  function Run(s: Store, actions: seq<Action>): Store
    decreases |actions|
  {
    if |actions| == 0 then s else Run(Perform(s, actions[0]), actions[1..])
  }

  lemma PerformKeepsSound(s: Store, a: Action)
    requires Sound(s)
    ensures Sound(Perform(s, a))
  {
    assert NonNegativeSeats(s.bookings);
    match a
    case Book(session, now, req, freshId) =>
      CreateKeepsCapacity(s, session, now, req, freshId);
      var r := CreateBookingChecked(s, session, now, req, freshId);
      if r.outcome.Success? {
        assert r.store.bookings == s.bookings + [r.outcome.value];
        assert forall k | 0 <= k < |r.store.bookings| :: r.store.bookings[k].seats >= 1 by {
          forall k | 0 <= k < |r.store.bookings| ensures r.store.bookings[k].seats >= 1 {
            if k < |s.bookings| { assert r.store.bookings[k] == s.bookings[k]; }
          }
        }
      }
    case Confirm(bookingId, driverId) =>
      var r := ConfirmPendingOnly(s, bookingId, driverId);
      if FindBooking(s.bookings, bookingId).None?
         || s.bookings[FindBooking(s.bookings, bookingId).value].status == Pending {
        ConfirmLiveKeepsCapacity(s, bookingId, driverId);
      }
    case Cancel(bookingId, userId, isDriver) =>
      CancelKeepsCapacity(s, bookingId, userId, isDriver);
    case Remove(tripId, userId) =>
      DeleteTripKeepsCapacity(s, tripId, userId);
  }

  /**
    With the corrections, every sequence of bookings, confirmations,
    cancellations and trip removals keeps every trip within capacity.
  */
  lemma {:induction false} RunKeepsSound(s: Store, actions: seq<Action>)
    requires Sound(s)
    ensures Sound(Run(s, actions))
    decreases |actions|
  {
    if |actions| > 0 {
      PerformKeepsSound(s, actions[0]);
      RunKeepsSound(Perform(s, actions[0]), actions[1..]);
    }
  }
}
