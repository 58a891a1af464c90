/**
  The relational store behind the server actions, as immutable values: users,
  trips keyed by id, and bookings in the order they were created. The
  listings sort by a `createdAt` timestamp; bookings created in the same
  instant are kept here in creation order (see `Bookings.NewestFirst`
  under "Left out" in the README). Also the seat arithmetic that
  the booking check, the booking page and the public listing each perform
  with their own filter on booking status.
*/
module Store {
  import opened Wrappers

  type UserId = string
  type TripId = string
  type BookingId = string

  /** The schema's ACTIVE, COMPLETED and CANCELLED trip states. */
  datatype TripStatus = TripActive | TripCompleted | TripCancelled

  datatype BookingStatus = Pending | Confirmed | Cancelled

  datatype User = User(firstName: string, lastName: string, isDriver: bool)

  /**
    `departureDate` is the departure day as an integer timestamp (midnight
    of that day, as `new Date` reads the form's date field); `departureTime`
    is the time of day as the form's string, which no check reads. Prices
    are whole amounts.
  */
  datatype Trip = Trip(
    driverId: UserId,
    departureCity: string,
    arrivalCity: string,
    departureCoords: string,
    arrivalCoords: string,
    departureDate: int,
    departureTime: string,
    availableSeats: int,
    pricePerSeat: int,
    description: Option<string>,
    status: TripStatus)

  datatype Booking = Booking(
    id: BookingId,
    tripId: TripId,
    userId: UserId,
    seats: int,
    totalPrice: int,
    status: BookingStatus)

  datatype Store = Store(users: map<UserId, User>, trips: map<TripId, Trip>, bookings: seq<Booking>)

  /** Why a server action answered `success: false`. */
  datatype Failure =
    | NotSignedIn        // no session
    | NotADriver         // trip creation by a missing user or a passenger
    | MissingCoordinates // trip creation without both coordinate strings
    | TripNotFound
    | TripUnavailable    // trip status is not ACTIVE
    | TripDeparted       // departure date before now
    | NotEnoughSeats
    | BookingNotFound
    | NotAuthorized      // the acting user does not own the trip or booking
    | StorageError       // the database raised an error, caught and reported generically
    | InvalidSeatCount   // corrected booking creation only: fewer than one seat requested
    | NotPending         // corrected confirmation only: the booking is no longer PENDING

  /** The answer of a server action together with the store it leaves behind. */
  datatype Step<+T> = Step(outcome: Result<T, Failure>, store: Store)

  /** A refused action: the failure, and the store left as it was. */
  function Refuse<T>(s: Store, f: Failure): Step<T> {
    Step(Failure(f), s)
  }

  /** Position of the booking with the given id (the first one, should ids repeat). */
  function FindBooking(bs: seq<Booking>, id: BookingId): (r: Option<nat>)
    ensures r.None? <==> forall k | 0 <= k < |bs| :: bs[k].id != id
    ensures r.Some? ==> r.value < |bs| && bs[r.value].id == id
    ensures r.Some? ==> forall k | 0 <= k < r.value :: bs[k].id != id
  {
    if |bs| == 0 then None
    else if bs[0].id == id then Some(0)
    else match FindBooking(bs[1..], id)
      case None => None
      case Some(k) => Some(k + 1)
  }

  /** No two bookings share an id (the database's primary key). */
  ghost predicate UniqueIds(bs: seq<Booking>) {
    forall j, k | 0 <= j < k < |bs| :: bs[j].id != bs[k].id
  }

  /** The status filters the source applies before adding up seats. */
  datatype Policy =
    | NotCancelled       // createBooking: status !== "CANCELLED"
    | PendingOrConfirmed // getTripForBooking: status in [CONFIRMED, PENDING]
    | ConfirmedOnly      // getAllTrips: status === "CONFIRMED"
    | PendingOnly        // the difference between the two figures above

  predicate Counts(p: Policy, st: BookingStatus) {
    match p
    case NotCancelled => st != Cancelled
    case PendingOrConfirmed => st == Confirmed || st == Pending
    case ConfirmedOnly => st == Confirmed
    case PendingOnly => st == Pending
  }

  /** What one booking adds to a trip's total under a policy. */
  function Share(b: Booking, t: TripId, p: Policy): int {
    if b.tripId == t && Counts(p, b.status) then b.seats else 0
  }

  /** The seats of trip `t` held by bookings counted under `p`: a left fold, as `reduce` does. */
  function SumSeats(bs: seq<Booking>, t: TripId, p: Policy): int {
    if |bs| == 0 then 0 else SumSeats(bs[..|bs| - 1], t, p) + Share(bs[|bs| - 1], t, p)
  }

  /** The capacity invariant: no trip has more seats held than it offers. */
  ghost predicate CapacityOk(s: Store) {
    forall t | t in s.trips :: SumSeats(s.bookings, t, NotCancelled) <= s.trips[t].availableSeats
  }

  ghost predicate NonNegativeSeats(bs: seq<Booking>) {
    forall k | 0 <= k < |bs| :: bs[k].seats >= 0
  }

  /** Every booking holds at least one seat, as the booking form's `min="1"` intends. */
  ghost predicate PositiveSeats(bs: seq<Booking>) {
    forall k | 0 <= k < |bs| :: bs[k].seats >= 1
  }

  lemma SumAppend(bs: seq<Booking>, b: Booking, t: TripId, p: Policy)
    ensures SumSeats(bs + [b], t, p) == SumSeats(bs, t, p) + Share(b, t, p)
  {
    assert (bs + [b])[..|bs|] == bs;
  }

  /** Replacing one booking changes a total by exactly the difference of their shares. */
  lemma {:induction false} SumUpdate(bs: seq<Booking>, i: nat, b: Booking, t: TripId, p: Policy)
    requires i < |bs|
    ensures SumSeats(bs[i := b], t, p) == SumSeats(bs, t, p) - Share(bs[i], t, p) + Share(b, t, p)
    decreases |bs|
  {
    var last := |bs| - 1;
    if i == last {
      assert bs[i := b][..last] == bs[..last];
    } else {
      assert bs[i := b][..last] == bs[..last][i := b];
      SumUpdate(bs[..last], i, b, t, p);
    }
  }

  /** A booking held under `p` contributes its seats; the totals split by status. */
  lemma {:induction false} SumByStatus(bs: seq<Booking>, t: TripId)
    ensures SumSeats(bs, t, NotCancelled) == SumSeats(bs, t, PendingOrConfirmed)
    ensures SumSeats(bs, t, NotCancelled) == SumSeats(bs, t, ConfirmedOnly) + SumSeats(bs, t, PendingOnly)
    decreases |bs|
  {
    if |bs| > 0 {
      SumByStatus(bs[..|bs| - 1], t);
    }
  }

  /** With no negative seat counts, every total is non-negative. */
  lemma {:induction false} SumNonNegative(bs: seq<Booking>, t: TripId, p: Policy)
    requires NonNegativeSeats(bs)
    ensures SumSeats(bs, t, p) >= 0
    decreases |bs|
  {
    if |bs| > 0 {
      SumNonNegative(bs[..|bs| - 1], t, p);
    }
  }
}
