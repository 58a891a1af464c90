/**
  The booking engine: `createBooking`, `confirmBooking`, `cancelBooking`,
  `getTripForBooking`, and the selection and ordering behind
  `getPassengerBookings` and `getDriverBookings`. Each action reads the
  store, runs its checks in the source's order, and writes at most once.
  The acting user's session and the current time are parameters.
*/
module Bookings {
  import opened Wrappers
  import opened Store
  import opened Seqs

  datatype BookingRequest = BookingRequest(tripId: TripId, userId: UserId, seats: int)

  /**
    The trip exists, is ACTIVE and its departure date is not before `now`
    (equal still counts). Only the date is compared: `departureTime` is not read.
  */
  predicate Bookable(s: Store, now: int, t: TripId) {
    t in s.trips && s.trips[t].status == TripActive && !(s.trips[t].departureDate < now)
  }

  /** The seats `createBooking` regards as still free on a trip. */
  function FreeSeats(s: Store, t: TripId): int
    requires t in s.trips
  {
    s.trips[t].availableSeats - SumSeats(s.bookings, t, NotCancelled)
  }

  /**
    `s'` differs from `s` only in the status of booking `i`, which is now `st`:
    same users, same trips, same number of bookings, every other booking as it was.
  */
  ghost predicate OnlyStatusChanged(s: Store, s': Store, i: nat, st: BookingStatus) {
    && i < |s.bookings|
    && s'.users == s.users
    && s'.trips == s.trips
    && |s'.bookings| == |s.bookings|
    && s'.bookings[i] == s.bookings[i].(status := st)
    && forall k | 0 <= k < |s.bookings| && k != i :: s'.bookings[k] == s.bookings[k]
  }

  function SetStatus(s: Store, i: nat, st: BookingStatus): (s': Store)
    requires i < |s.bookings|
    ensures OnlyStatusChanged(s, s', i, st)
  {
    s.(bookings := s.bookings[i := s.bookings[i].(status := st)])
  }

  /**
    `createBooking`. The requested seat count is not checked for sign, and the
    booking is written for `req.userId` whoever holds the session. The
    database refuses the insert, and the action answers with its generic
    error, when `freshId` is already in use or `req.userId` names no user
    (the booking's passenger is a required relation).
  */
  function CreateBooking(s: Store, session: Option<UserId>, now: int, req: BookingRequest, freshId: BookingId)
    : (r: Step<Booking>)
    ensures r.outcome.Failure? ==> r.store == s
    ensures session.None? ==> r.outcome == Failure(NotSignedIn)
    ensures session.Some? && req.tripId !in s.trips ==> r.outcome == Failure(TripNotFound)
    ensures session.Some? && req.tripId in s.trips && s.trips[req.tripId].status != TripActive
            ==> r.outcome == Failure(TripUnavailable)
    ensures session.Some? && req.tripId in s.trips && s.trips[req.tripId].status == TripActive
            && s.trips[req.tripId].departureDate < now
            ==> r.outcome == Failure(TripDeparted)
    ensures session.Some? && Bookable(s, now, req.tripId)
            ==> (r.outcome == Failure(NotEnoughSeats) <==> FreeSeats(s, req.tripId) < req.seats)
    ensures session.Some? && Bookable(s, now, req.tripId) && req.seats <= FreeSeats(s, req.tripId)
            && (FindBooking(s.bookings, freshId).Some? || req.userId !in s.users)
            ==> r.outcome == Failure(StorageError)
    ensures r.outcome.Success? <==>
              && session.Some?
              && Bookable(s, now, req.tripId)
              && req.seats <= FreeSeats(s, req.tripId)
              && req.userId in s.users
              && forall k | 0 <= k < |s.bookings| :: s.bookings[k].id != freshId
    ensures r.outcome.Success? ==>
              var b := r.outcome.value;
              && b.id == freshId && b.tripId == req.tripId && b.userId == req.userId && b.seats == req.seats
              && b.status == Pending
              && b.totalPrice == s.trips[req.tripId].pricePerSeat * req.seats
              && r.store.users == s.users && r.store.trips == s.trips
              && r.store.bookings == s.bookings + [b]
  {
    if session.None? then Refuse(s, NotSignedIn)
    else if req.tripId !in s.trips then Refuse(s, TripNotFound)
    else
      var trip := s.trips[req.tripId];
      if trip.status != TripActive then Refuse(s, TripUnavailable)
      else if trip.departureDate < now then Refuse(s, TripDeparted)
      else if trip.availableSeats - SumSeats(s.bookings, req.tripId, NotCancelled) < req.seats then
        Refuse(s, NotEnoughSeats)
      else if FindBooking(s.bookings, freshId).Some? || req.userId !in s.users then Refuse(s, StorageError)
      else
        var b := Booking(freshId, req.tripId, req.userId, req.seats, trip.pricePerSeat * req.seats, Pending);
        Step(Success(b), s.(bookings := s.bookings + [b]))
  }

  /**
    `confirmBooking`: only the trip's driver may confirm, from any prior
    status, and capacity is not looked at again. A booking whose trip is gone
    cannot be dereferenced, which the source reports as a generic error.
  */
  function ConfirmBooking(s: Store, bookingId: BookingId, driverId: UserId): (r: Step<Booking>)
    ensures r.outcome.Failure? ==> r.store == s
    ensures FindBooking(s.bookings, bookingId).None? ==> r.outcome == Failure(BookingNotFound)
    ensures FindBooking(s.bookings, bookingId).Some? ==>
              var i := FindBooking(s.bookings, bookingId).value;
              var b := s.bookings[i];
              && (b.tripId !in s.trips ==> r.outcome == Failure(StorageError))
              && (b.tripId in s.trips && s.trips[b.tripId].driverId != driverId
                  ==> r.outcome == Failure(NotAuthorized))
              && (b.tripId in s.trips && s.trips[b.tripId].driverId == driverId
                  ==> r.outcome == Success(b.(status := Confirmed)) && OnlyStatusChanged(s, r.store, i, Confirmed))
  {
    match FindBooking(s.bookings, bookingId)
    case None => Refuse(s, BookingNotFound)
    case Some(i) =>
      var b := s.bookings[i];
      if b.tripId !in s.trips then Refuse(s, StorageError)
      else if s.trips[b.tripId].driverId != driverId then Refuse(s, NotAuthorized)
      else Step(Success(b.(status := Confirmed)), SetStatus(s, i, Confirmed))
  }

  /**
    May `userId` cancel booking `b`? The role comes from the caller's
    `isDriver` flag: a driver must own the trip, a passenger the booking.
    `None` when the driver check would dereference a missing trip.
  */
  function MayCancel(s: Store, b: Booking, userId: UserId, isDriver: bool): Option<bool> {
    if isDriver then
      if b.tripId !in s.trips then None else Some(s.trips[b.tripId].driverId == userId)
    else Some(b.userId == userId)
  }

  /** `cancelBooking`: the authorised party may cancel from any prior status. */
  function CancelBooking(s: Store, bookingId: BookingId, userId: UserId, isDriver: bool): (r: Step<Booking>)
    ensures r.outcome.Failure? ==> r.store == s
    ensures FindBooking(s.bookings, bookingId).None? ==> r.outcome == Failure(BookingNotFound)
    ensures FindBooking(s.bookings, bookingId).Some? ==>
              var i := FindBooking(s.bookings, bookingId).value;
              var b := s.bookings[i];
              && (isDriver && b.tripId !in s.trips ==> r.outcome == Failure(StorageError))
              && (isDriver && b.tripId in s.trips && s.trips[b.tripId].driverId != userId
                  ==> r.outcome == Failure(NotAuthorized))
              && (!isDriver && b.userId != userId ==> r.outcome == Failure(NotAuthorized))
              && (r.outcome.Success? <==>
                    if isDriver then b.tripId in s.trips && s.trips[b.tripId].driverId == userId
                    else b.userId == userId)
              && (r.outcome.Success? ==>
                    r.outcome.value == b.(status := Cancelled) && OnlyStatusChanged(s, r.store, i, Cancelled))
  {
    match FindBooking(s.bookings, bookingId)
    case None => Refuse(s, BookingNotFound)
    case Some(i) =>
      var b := s.bookings[i];
      match MayCancel(s, b, userId, isDriver)
      case None => Refuse(s, StorageError)
      case Some(false) => Refuse(s, NotAuthorized)
      case Some(true) => Step(Success(b.(status := Cancelled)), SetStatus(s, i, Cancelled))
  }

  /** Changing a booking's status keeps every booking at the position it had. */
  lemma FindAfterStatusChange(s: Store, i: nat, st: BookingStatus, id: BookingId)
    requires i < |s.bookings|
    ensures FindBooking(SetStatus(s, i, st).bookings, id) == FindBooking(s.bookings, id)
  {
    var bs' := SetStatus(s, i, st).bookings;
    assert forall k | 0 <= k < |bs'| :: bs'[k].id == s.bookings[k].id;
  }

  /** Cancelling twice has the effect of cancelling once. */
  lemma CancelIdempotent(s: Store, bookingId: BookingId, userId: UserId, isDriver: bool)
    ensures var r1 := CancelBooking(s, bookingId, userId, isDriver);
            var r2 := CancelBooking(r1.store, bookingId, userId, isDriver);
            r2.store == r1.store && r2.outcome.Success? == r1.outcome.Success?
  {
    var r1 := CancelBooking(s, bookingId, userId, isDriver);
    var f := FindBooking(s.bookings, bookingId);
    if f.Some? {
      FindAfterStatusChange(s, f.value, Cancelled, bookingId);
      if r1.outcome.Success? {
        var b := s.bookings[f.value];
        assert r1.store.bookings[f.value] == b.(status := Cancelled);
        assert r1.store.bookings[f.value := b.(status := Cancelled)] == r1.store.bookings;
      }
    }
  }

  /** What the booking page shows for a trip: the trip and its remaining seats. */
  datatype BookingPage = BookingPage(id: TripId, trip: Trip, remainingSeats: int)

  /**
    `getTripForBooking`. It adds up PENDING and CONFIRMED bookings, where
    `createBooking` adds up those that are not CANCELLED; with three statuses
    the two figures coincide.
  */
  function GetTripForBooking(s: Store, t: TripId): (r: Result<BookingPage, Failure>)
    ensures t !in s.trips ==> r == Failure(TripNotFound)
    ensures t in s.trips ==>
              r.Success? && r.value.id == t && r.value.trip == s.trips[t]
              && r.value.remainingSeats == FreeSeats(s, t)
  {
    if t !in s.trips then Failure(TripNotFound)
    else
      SumByStatus(s.bookings, t);
      Success(BookingPage(t, s.trips[t], s.trips[t].availableSeats - SumSeats(s.bookings, t, PendingOrConfirmed)))
  }

  /**
    A request that clears the session, status and date checks, for a known
    passenger under a fresh id, is accepted exactly when the booking page
    shows at least that many seats remaining.
  */
  lemma AcceptedIffPageShowsRoom(s: Store, session: Option<UserId>, now: int, req: BookingRequest, freshId: BookingId)
    requires session.Some? && Bookable(s, now, req.tripId)
    requires forall k | 0 <= k < |s.bookings| :: s.bookings[k].id != freshId
    requires req.userId in s.users
    ensures CreateBooking(s, session, now, req, freshId).outcome.Success?
            <==> req.seats <= GetTripForBooking(s, req.tripId).value.remainingSeats
  {
  }

  /** Whose dashboard a booking list is for. */
  datatype Audience = Passenger(userId: UserId) | Driver(driverId: UserId)

  /** `getPassengerBookings` selects by booker; `getDriverBookings` by the trip's driver. */
  predicate Shows(s: Store, a: Audience, b: Booking) {
    match a
    case Passenger(u) => b.userId == u
    case Driver(d) => b.tripId in s.trips && s.trips[b.tripId].driverId == d
  }

  /** The bookings of `bs` shown to `a`, as a bag: order forgotten, repetitions kept. */
  ghost function ShownBag(s: Store, a: Audience, bs: seq<Booking>): multiset<Booking>
    decreases |bs|
  {
    if |bs| == 0 then multiset{}
    else (if Shows(s, a, bs[0]) then multiset{bs[0]} else multiset{}) + ShownBag(s, a, bs[1..])
  }

  /** Each shown booking occurs in the bag as often as in `bs`; the others not at all. */
  lemma {:induction false} ShownBagCount(s: Store, a: Audience, bs: seq<Booking>, b: Booking)
    ensures ShownBag(s, a, bs)[b] == if Shows(s, a, b) then multiset(bs)[b] else 0
    decreases |bs|
  {
    if |bs| > 0 {
      ShownBagCount(s, a, bs[1..], b);
      assert bs == [bs[0]] + bs[1..];
      assert multiset(bs) == multiset{bs[0]} + multiset(bs[1..]);
    }
  }

  /** `ShownBag` grows by the last booking exactly when that booking is shown. */
  lemma {:induction false} ShownBagSnoc(s: Store, a: Audience, bs: seq<Booking>, x: Booking)
    ensures ShownBag(s, a, bs + [x]) == ShownBag(s, a, bs) + if Shows(s, a, x) then multiset{x} else multiset{}
    decreases |bs|
  {
    if |bs| > 0 {
      assert (bs + [x])[1..] == bs[1..] + [x];
      ShownBagSnoc(s, a, bs[1..], x);
    } else {
      assert [x][1..] == [];
    }
  }

  /**
    The bookings of `bs` shown to `a`, newest first (`orderBy createdAt desc`;
    `bs` is in creation order): exactly the shown ones, in reverse order.
  */
  function NewestFirst(s: Store, a: Audience, bs: seq<Booking>): (r: seq<Booking>)
    ensures forall b :: b in r <==> b in bs && Shows(s, a, b)
    ensures multiset(r) == ShownBag(s, a, bs)
    ensures IsSubsequence(r, Reverse(bs))
  {
    if |bs| == 0 then []
    else
      var last, rest := bs[|bs| - 1], NewestFirst(s, a, bs[..|bs| - 1]);
      assert Reverse(bs) == [last] + Reverse(bs[..|bs| - 1]);
      assert bs == bs[..|bs| - 1] + [last];
      ShownBagSnoc(s, a, bs[..|bs| - 1], last);
      if Shows(s, a, last) then
        assert multiset([last] + rest) == multiset{last} + multiset(rest);
        SubsequenceKeep(rest, last, Reverse(bs[..|bs| - 1]));
        [last] + rest
      else
        SubsequenceSkip(rest, last, Reverse(bs[..|bs| - 1]));
        rest
  }

  /** `getPassengerBookings`: the user's own bookings, newest first. */
  function PassengerBookings(s: Store, userId: UserId): (r: seq<Booking>)
    ensures forall b :: b in r <==> b in s.bookings && b.userId == userId
    ensures multiset(r) == ShownBag(s, Passenger(userId), s.bookings)
    ensures IsSubsequence(r, Reverse(s.bookings))
  {
    NewestFirst(s, Passenger(userId), s.bookings)
  }

  /** `getDriverBookings`: the bookings on the driver's trips, newest first. */
  function DriverBookings(s: Store, driverId: UserId): (r: seq<Booking>)
    ensures forall b :: b in r <==> b in s.bookings && b.tripId in s.trips && s.trips[b.tripId].driverId == driverId
    ensures multiset(r) == ShownBag(s, Driver(driverId), s.bookings)
    ensures IsSubsequence(r, Reverse(s.bookings))
  {
    NewestFirst(s, Driver(driverId), s.bookings)
  }
}
