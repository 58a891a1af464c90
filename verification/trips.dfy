/**
  The trip catalog: `createTrip`, `getDriverTrips`, `getAllTrips` (its
  selection, order and seat figure) and `deleteTrip`.
*/
module Trips {
  import opened Wrappers
  import opened Store
  import opened Bookings
  import opened Text

  /** The form data of `createTrip`; the coordinates are optional in its type. */
  datatype TripDraft = TripDraft(
    departureCity: string,
    arrivalCity: string,
    departureDate: int,
    departureTime: string,
    availableSeats: int,
    pricePerSeat: int,
    description: Option<string>,
    departureCoords: Option<string>,
    arrivalCoords: Option<string>)

  /**
    `createTrip`: the acting user must exist and be a driver, and both
    coordinate strings must be given; the new trip is ACTIVE. A `freshId`
    already in use stands for the database refusing the insert.
  */
  function CreateTrip(s: Store, draft: TripDraft, driverId: UserId, freshId: TripId): (r: Step<Trip>)
    ensures r.outcome.Failure? ==> r.store == s
    ensures driverId !in s.users || !s.users[driverId].isDriver ==> r.outcome == Failure(NotADriver)
    ensures driverId in s.users && s.users[driverId].isDriver
            && (!Filled(draft.departureCoords) || !Filled(draft.arrivalCoords))
            ==> r.outcome == Failure(MissingCoordinates)
    ensures r.outcome.Success? <==>
              && driverId in s.users && s.users[driverId].isDriver
              && Filled(draft.departureCoords) && Filled(draft.arrivalCoords)
              && freshId !in s.trips
    ensures r.outcome.Success? ==>
              var t := r.outcome.value;
              && t.driverId == driverId
              && t.departureCity == draft.departureCity && t.arrivalCity == draft.arrivalCity
              && Some(t.departureCoords) == draft.departureCoords && Some(t.arrivalCoords) == draft.arrivalCoords
              && t.departureDate == draft.departureDate && t.departureTime == draft.departureTime
              && t.availableSeats == draft.availableSeats && t.pricePerSeat == draft.pricePerSeat
              && t.description == draft.description && t.status == TripActive
              && r.store.users == s.users && r.store.bookings == s.bookings
              && r.store.trips.Keys == s.trips.Keys + {freshId}
              && r.store.trips[freshId] == t
              && forall id | id in s.trips :: r.store.trips[id] == s.trips[id]
  {
    if driverId !in s.users || !s.users[driverId].isDriver then Refuse(s, NotADriver)
    else if !Filled(draft.departureCoords) || !Filled(draft.arrivalCoords) then Refuse(s, MissingCoordinates)
    else if freshId in s.trips then Refuse(s, StorageError)
    else
      var t := Trip(driverId, draft.departureCity, draft.arrivalCity,
                    draft.departureCoords.value, draft.arrivalCoords.value,
                    draft.departureDate, draft.departureTime, draft.availableSeats, draft.pricePerSeat,
                    draft.description, TripActive);
      Step(Success(t), s.(trips := s.trips[freshId := t]))
  }

  /** `deleteTrip`: only the trip's driver may remove it. */
  function DeleteTrip(s: Store, tripId: TripId, userId: UserId): (r: Step<()>)
    ensures r.outcome.Failure? ==> r.store == s
    ensures tripId !in s.trips ==> r.outcome == Failure(TripNotFound)
    ensures tripId in s.trips && s.trips[tripId].driverId != userId ==> r.outcome == Failure(NotAuthorized)
    ensures r.outcome.Success? <==> tripId in s.trips && s.trips[tripId].driverId == userId
    ensures r.outcome.Success? ==>
              && r.store.trips.Keys == s.trips.Keys - {tripId}
              && (forall id | id in r.store.trips :: r.store.trips[id] == s.trips[id])
              && r.store.users == s.users
    ensures r.outcome.Success? ==>
              && (forall b | b in r.store.bookings :: b in s.bookings)
              && (forall b: Booking | b.tripId != tripId :: multiset(r.store.bookings)[b] == multiset(s.bookings)[b])
  {
    if tripId !in s.trips then Refuse(s, TripNotFound)
    else if s.trips[tripId].driverId != userId then Refuse(s, NotAuthorized)
    else Step(Success(()), s.(trips := s.trips - {tripId}))
  }

  /** A trip together with its id, as the listings return it. */
  datatype TripEntry = TripEntry(id: TripId, trip: Trip)

  /** The two `where` clauses of the listings. */
  datatype Selection = OwnedBy(driverId: UserId) | OpenFrom(now: int)

  predicate Selects(sel: Selection, t: Trip) {
    match sel
    case OwnedBy(d) => t.driverId == d
    case OpenFrom(now) => t.status == TripActive && t.departureDate >= now
  }

  ghost predicate SortedByDeparture(r: seq<TripEntry>) {
    forall j, k | 0 <= j < k < |r| :: r[j].trip.departureDate <= r[k].trip.departureDate
  }

  ghost function Ids(r: seq<TripEntry>): set<TripId> {
    set e | e in r :: e.id
  }

  /** No trip is listed twice. */
  ghost predicate DistinctIds(r: seq<TripEntry>) {
    |r| == 0 || (r[0].id !in Ids(r[1..]) && DistinctIds(r[1..]))
  }

  /** Every entry is a trip of `trips` under its own id. */
  ghost predicate FromStore(r: seq<TripEntry>, trips: map<TripId, Trip>) {
    forall x | x in r :: x.id in trips && trips[x.id] == x.trip
  }

  /** The ids among `keys` of trips that `sel` picks. */
  ghost function Picked(trips: map<TripId, Trip>, sel: Selection, keys: set<TripId>): set<TripId> {
    set id | id in keys && id in trips && Selects(sel, trips[id])
  }

  /** Insertion into a list ordered by departure. */
  function Insert(e: TripEntry, r: seq<TripEntry>): (r': seq<TripEntry>)
    requires SortedByDeparture(r)
    ensures SortedByDeparture(r')
    ensures forall x :: x in r' <==> x == e || x in r
    ensures |r'| == |r| + 1
  {
    if |r| == 0 || e.trip.departureDate <= r[0].trip.departureDate then [e] + r
    else
      var rest := Insert(e, r[1..]);
      assert r == [r[0]] + r[1..];
      FirstIsEarliest(r[0], rest, e, r[1..], r);
      [r[0]] + rest
  }

  lemma FirstIsEarliest(first: TripEntry, rest: seq<TripEntry>, e: TripEntry, tail: seq<TripEntry>, r: seq<TripEntry>)
    requires SortedByDeparture(rest) && SortedByDeparture(r)
    requires |r| > 0 && r[0] == first && r[1..] == tail
    requires first.trip.departureDate < e.trip.departureDate
    requires forall x :: x in rest <==> x == e || x in tail
    ensures SortedByDeparture([first] + rest)
  {
    var r' := [first] + rest;
    forall k | 0 < k < |r'| ensures first.trip.departureDate <= r'[k].trip.departureDate {
      assert r'[k] == rest[k - 1];
      assert rest[k - 1] in rest;
      if rest[k - 1] != e {
        var m :| 0 <= m < |tail| && tail[m] == rest[k - 1];
        assert tail[m] == r[m + 1];
      }
    }
    forall j, k | 0 <= j < k < |r'| ensures r'[j].trip.departureDate <= r'[k].trip.departureDate {
      if j > 0 {
        assert r'[j] == rest[j - 1] && r'[k] == rest[k - 1];
      }
    }
  }

  lemma {:induction false} InsertIds(e: TripEntry, r: seq<TripEntry>)
    requires SortedByDeparture(r)
    requires DistinctIds(r) && e.id !in Ids(r)
    ensures Ids(Insert(e, r)) == Ids(r) + {e.id}
    ensures DistinctIds(Insert(e, r))
    decreases |r|
  {
    InsertIdSet(e, r);
    var r' := Insert(e, r);
    if |r| > 0 && !(e.trip.departureDate <= r[0].trip.departureDate) {
      var rest := Insert(e, r[1..]);
      assert r == [r[0]] + r[1..];
      IdsCons(r[0], r[1..]);
      InsertIds(e, r[1..]);
      assert r'[1..] == rest;
    } else {
      assert r'[1..] == r;
    }
  }

  /** Inserting adds exactly the new entry's id. */
  lemma InsertIdSet(e: TripEntry, r: seq<TripEntry>)
    requires SortedByDeparture(r)
    ensures Ids(Insert(e, r)) == Ids(r) + {e.id}
  {
    var r' := Insert(e, r);
    assert forall y :: y in r' <==> y == e || y in r;
  }

  lemma IdsCons(x: TripEntry, rest: seq<TripEntry>)
    ensures Ids([x] + rest) == {x.id} + Ids(rest)
  {
    assert forall y :: y in [x] + rest <==> y == x || y in rest;
  }

  /** `r` lists, in departure order and once each, the picked trips among `done`. */
  ghost predicate Collected(r: seq<TripEntry>, trips: map<TripId, Trip>, sel: Selection, done: set<TripId>) {
    && SortedByDeparture(r)
    && DistinctIds(r)
    && FromStore(r, trips)
    && (forall x | x in r :: Selects(sel, x.trip))
    && Ids(r) == Picked(trips, sel, done)
  }

  function Visit(r: seq<TripEntry>, trips: map<TripId, Trip>, sel: Selection, id: TripId): seq<TripEntry>
    requires id in trips && SortedByDeparture(r)
  {
    if Selects(sel, trips[id]) then Insert(TripEntry(id, trips[id]), r) else r
  }

  lemma VisitKeepsCollected(r: seq<TripEntry>, trips: map<TripId, Trip>, sel: Selection, done: set<TripId>, id: TripId)
    requires Collected(r, trips, sel, done)
    requires id in trips && id !in done
    ensures Collected(Visit(r, trips, sel, id), trips, sel, done + {id})
  {
    if Selects(sel, trips[id]) {
      InsertIds(TripEntry(id, trips[id]), r);
      assert Picked(trips, sel, done + {id}) == Picked(trips, sel, done) + {id};
    } else {
      assert Picked(trips, sel, done + {id}) == Picked(trips, sel, done);
    }
  }

  /**
    The trips of `trips` that `sel` picks, each once, ordered by departure
    ascending. (Trips departing at the same moment may come in any order.)
  */
  method SelectSorted(trips: map<TripId, Trip>, sel: Selection) returns (r: seq<TripEntry>)
    ensures SortedByDeparture(r)
    ensures DistinctIds(r)
    ensures FromStore(r, trips)
    ensures forall x | x in r :: Selects(sel, x.trip)
    ensures Ids(r) == set id | id in trips && Selects(sel, trips[id])
  {
    r := [];
    var rest := trips.Keys;
    while rest != {}
      invariant rest <= trips.Keys
      invariant Collected(r, trips, sel, trips.Keys - rest)
      decreases |rest|
    {
      var id :| id in rest;
      VisitKeepsCollected(r, trips, sel, trips.Keys - rest, id);
      r := Visit(r, trips, sel, id);
      assert trips.Keys - (rest - {id}) == (trips.Keys - rest) + {id};
      rest := rest - {id};
    }
    CollectedAll(r, trips, sel);
  }

  /** Once every key has been visited, the collected list holds exactly the picked trips. */
  lemma CollectedAll(r: seq<TripEntry>, trips: map<TripId, Trip>, sel: Selection)
    requires Collected(r, trips, sel, trips.Keys - {})
    ensures Ids(r) == set id | id in trips && Selects(sel, trips[id])
  {
    assert trips.Keys - {} == trips.Keys;
    assert Picked(trips, sel, trips.Keys) == set id | id in trips && Selects(sel, trips[id]);
  }

  /** `getDriverTrips`: every trip of the driver, whatever its status or date, by departure. */
  method GetDriverTrips(s: Store, driverId: UserId) returns (r: seq<TripEntry>)
    ensures SortedByDeparture(r) && DistinctIds(r) && FromStore(r, s.trips)
    ensures forall x | x in r :: x.trip.driverId == driverId
    ensures Ids(r) == set id | id in s.trips && s.trips[id].driverId == driverId
  {
    r := SelectSorted(s.trips, OwnedBy(driverId));
  }

  /** A row of the public listing: the trip and the seats it advertises as remaining. */
  datatype TripListing = TripListing(id: TripId, trip: Trip, remainingSeats: int)

  /** The listing's seat figure: only CONFIRMED bookings are deducted. */
  function ListedSeats(s: Store, t: TripId): int
    requires t in s.trips
  {
    s.trips[t].availableSeats - SumSeats(s.bookings, t, ConfirmedOnly)
  }

  /**
    `getAllTrips`: the ACTIVE trips departing at or after `now`, by departure,
    each with its remaining seats counted against CONFIRMED bookings only.
    These are exactly the trips `createBooking` would consider.
  */
  method GetAllTrips(s: Store, now: int) returns (r: seq<TripListing>)
    ensures forall j, k | 0 <= j < k < |r| :: r[j].trip.departureDate <= r[k].trip.departureDate
    ensures forall j, k | 0 <= j < k < |r| :: r[j].id != r[k].id
    ensures forall k | 0 <= k < |r| ::
              && r[k].id in s.trips && r[k].trip == s.trips[r[k].id]
              && Bookable(s, now, r[k].id)
              && r[k].remainingSeats == ListedSeats(s, r[k].id)
    ensures forall id | id in s.trips && Bookable(s, now, id) :: exists k | 0 <= k < |r| :: r[k].id == id
  {
    var entries := SelectSorted(s.trips, OpenFrom(now));
    DistinctIdsByIndex(entries);
    assert forall k | 0 <= k < |entries| :: entries[k] in entries;
    r := seq(|entries|, k requires 0 <= k < |entries| && FromStore(entries, s.trips) =>
               assert entries[k] in entries;
               TripListing(entries[k].id, entries[k].trip, ListedSeats(s, entries[k].id)));
    forall id | id in s.trips && Bookable(s, now, id) ensures exists k | 0 <= k < |r| :: r[k].id == id {
      assert id in Ids(entries);
      var e :| e in entries && e.id == id;
      var k :| 0 <= k < |entries| && entries[k] == e;
      assert r[k].id == id;
    }
  }

  /** The recursive form of `DistinctIds` in terms of positions. */
  lemma {:induction false} DistinctIdsByIndex(r: seq<TripEntry>)
    requires DistinctIds(r)
    ensures forall j, k | 0 <= j < k < |r| :: r[j].id != r[k].id
    decreases |r|
  {
    if |r| > 0 {
      DistinctIdsByIndex(r[1..]);
      forall j, k | 0 <= j < k < |r| ensures r[j].id != r[k].id {
        if j == 0 {
          assert r[k] == r[1..][k - 1];
          assert r[k] in r[1..];
        } else {
          assert r[j] == r[1..][j - 1] && r[k] == r[1..][k - 1];
        }
      }
    }
  }

  /**
    The listing's figure exceeds the booking check's figure by exactly the
    seats of PENDING bookings, so it is never lower when no booking holds a
    negative seat count.
  */
  lemma ListedSeatsVersusFreeSeats(s: Store, t: TripId)
    requires t in s.trips
    ensures ListedSeats(s, t) == FreeSeats(s, t) + SumSeats(s.bookings, t, PendingOnly)
    ensures NonNegativeSeats(s.bookings) ==> ListedSeats(s, t) >= FreeSeats(s, t)
  {
    SumByStatus(s.bookings, t);
    if NonNegativeSeats(s.bookings) {
      SumNonNegative(s.bookings, t, PendingOnly);
    }
  }
}
