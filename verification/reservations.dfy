/**
  The list logic of the driver's reservation dashboard: the rows it receives
  from `getDriverBookings`, the search filter, the local status update after
  a successful confirm or refusal, and which rows offer those two actions.
*/
module Reservations {
  import opened Wrappers
  import opened Text
  import opened Store
  import opened Seqs
  import opened Bookings

  /** One row of the dashboard. */
  datatype Reservation = Reservation(
    id: BookingId,
    passengerName: string,
    from: string,
    to: string,
    seats: int,
    totalPrice: int,
    status: BookingStatus)

  /** The row `getDriverBookings` builds from a booking, its passenger and its trip. */
  function ToReservation(s: Store, b: Booking): Reservation {
    var name := if b.userId in s.users then s.users[b.userId].firstName + " " + s.users[b.userId].lastName else "";
    var from := if b.tripId in s.trips then s.trips[b.tripId].departureCity else "";
    var to := if b.tripId in s.trips then s.trips[b.tripId].arrivalCity else "";
    Reservation(b.id, name, from, to, b.seats, b.totalPrice, b.status)
  }

  /** One row per booking, in the same order, carrying the booking's id, seats, price and status. */
  function Rows(s: Store, bs: seq<Booking>): (r: seq<Reservation>)
    ensures |r| == |bs|
    ensures forall k | 0 <= k < |bs| ::
              && r[k].id == bs[k].id && r[k].status == bs[k].status
              && r[k].seats == bs[k].seats && r[k].totalPrice == bs[k].totalPrice
  {
    seq(|bs|, k requires 0 <= k < |bs| => ToReservation(s, bs[k]))
  }

  /** What the dashboard loads for a driver: the rows of the bookings on their trips, newest first. */
  function DriverReservations(s: Store, driverId: UserId): seq<Reservation> {
    Rows(s, DriverBookings(s, driverId))
  }

  /** The search test of one row against an already lower-cased query. */
  predicate Matches(r: Reservation, q: string) {
    || Contains(ToLower(r.passengerName), q)
    || Contains(ToLower(r.from), q)
    || Contains(ToLower(r.to), q)
  }

  /** The rows of `rs` that match `q`, as a bag: order forgotten, repetitions kept. */
  ghost function MatchingBag(rs: seq<Reservation>, q: string): multiset<Reservation>
    decreases |rs|
  {
    if |rs| == 0 then multiset{}
    else MatchingBag(rs[..|rs| - 1], q) + if Matches(rs[|rs| - 1], q) then multiset{rs[|rs| - 1]} else multiset{}
  }

  /** Each matching row occurs in the bag as often as in `rs`; the others not at all. */
  lemma {:induction false} MatchingBagCount(rs: seq<Reservation>, q: string, x: Reservation)
    ensures MatchingBag(rs, q)[x] == if Matches(x, q) then multiset(rs)[x] else 0
    decreases |rs|
  {
    if |rs| > 0 {
      var n := |rs| - 1;
      MatchingBagCount(rs[..n], q, x);
      assert rs == rs[..n] + [rs[n]];
      assert multiset(rs) == multiset(rs[..n]) + multiset{rs[n]};
    }
  }

  /** `MatchingBag` grows by the first row exactly when that row matches. */
  lemma {:induction false} MatchingBagCons(x: Reservation, rs: seq<Reservation>, q: string)
    ensures MatchingBag([x] + rs, q) == (if Matches(x, q) then multiset{x} else multiset{}) + MatchingBag(rs, q)
    decreases |rs|
  {
    if |rs| > 0 {
      var n := |rs| - 1;
      assert ([x] + rs)[..|rs|] == [x] + rs[..n];
      MatchingBagCons(x, rs[..n], q);
    } else {
      assert [x][..0] == [];
    }
  }

  /** `reservations.filter(...)`: the matching rows, in their order. */
  function KeepMatching(rs: seq<Reservation>, q: string): (r: seq<Reservation>)
    ensures forall x :: x in r <==> x in rs && Matches(x, q)
    ensures multiset(r) == MatchingBag(rs, q)
    ensures IsSubsequence(r, rs)
  {
    if |rs| == 0 then []
    else
      var rest := KeepMatching(rs[1..], q);
      assert rs == [rs[0]] + rs[1..];
      MatchingBagCons(rs[0], rs[1..], q);
      if Matches(rs[0], q) then
        assert multiset([rs[0]] + rest) == multiset{rs[0]} + multiset(rest);
        SubsequenceKeep(rest, rs[0], rs[1..]);
        [rs[0]] + rest
      else
        SubsequenceSkip(rest, rs[0], rs[1..]);
        rest
  }

  /**
    The search effect. A query that is blank once trimmed shows every row;
    otherwise the lower-cased query, untrimmed, must occur in the lower-cased
    passenger name, departure city or arrival city.
  */
  function SearchFilter(rs: seq<Reservation>, query: string): (r: seq<Reservation>)
    ensures AllSpace(query) ==> r == rs
    ensures !AllSpace(query) ==> forall x :: x in r <==> x in rs && Matches(x, ToLower(query))
    ensures !AllSpace(query) ==> multiset(r) == MatchingBag(rs, ToLower(query))
    ensures IsSubsequence(r, rs)
  {
    TrimEmptyIffAllSpace(query);
    if Trim(query) == "" then
      SubsequenceRefl(rs);
      rs
    else KeepMatching(rs, ToLower(query))
  }

  /** Give status `st` to the rows with id `id`: the `prev.map(...)` of the two handlers. */
  function ApplyStatus(rs: seq<Reservation>, id: BookingId, st: BookingStatus): seq<Reservation> {
    seq(|rs|, k requires 0 <= k < |rs| => if rs[k].id == id then rs[k].(status := st) else rs[k])
  }

  /**
    `handleConfirm` (and, with CANCELLED, `handleCancel`): after a successful
    answer only the rows of that reservation change, and only in status;
    after a failed one the list is as it was.
  */
  function AfterAnswer(rs: seq<Reservation>, id: BookingId, success: bool, st: BookingStatus): (r: seq<Reservation>)
    ensures !success ==> r == rs
    ensures |r| == |rs|
    ensures forall k | 0 <= k < |rs| :: r[k].(status := rs[k].status) == rs[k]
    ensures success ==> forall k | 0 <= k < |rs| :: r[k].status == (if rs[k].id == id then st else rs[k].status)
  {
    if success then ApplyStatus(rs, id, st) else rs
  }

  function HandleConfirm(rs: seq<Reservation>, id: BookingId, success: bool): seq<Reservation> {
    AfterAnswer(rs, id, success, Confirmed)
  }

  function HandleCancel(rs: seq<Reservation>, id: BookingId, success: bool): seq<Reservation> {
    AfterAnswer(rs, id, success, Cancelled)
  }

  /** The confirm and refuse buttons are shown only on PENDING rows. */
  predicate OffersActions(r: Reservation) {
    r.status == Pending
  }

  /** Once answered, a reservation no longer offers the two actions; other rows keep theirs. */
  lemma AnsweredRowsCloseActions(rs: seq<Reservation>, id: BookingId, confirmed: bool)
    ensures var r := if confirmed then HandleConfirm(rs, id, true) else HandleCancel(rs, id, true);
            forall k | 0 <= k < |rs| ::
              OffersActions(r[k]) <==> rs[k].id != id && OffersActions(rs[k])
  {
  }

  /** The search test does not look at status, so filtering and the status update commute. */
  lemma {:induction false} FilterCommutesWithStatus(rs: seq<Reservation>, q: string, id: BookingId, st: BookingStatus)
    ensures KeepMatching(ApplyStatus(rs, id, st), q) == ApplyStatus(KeepMatching(rs, q), id, st)
    decreases |rs|
  {
    if |rs| > 0 {
      var x, tail := rs[0], rs[1..];
      var x' := if x.id == id then x.(status := st) else x;
      var moved, kept := ApplyStatus(tail, id, st), KeepMatching(tail, q);
      assert rs == [x] + tail;
      ApplyStatusCons(x, tail, id, st);
      MatchesIgnoresStatus(x, st, q);
      KeepMatchingCons(x', moved, q);
      KeepMatchingCons(x, tail, q);
      FilterCommutesWithStatus(tail, q, id, st);
      if Matches(x, q) {
        calc {
          KeepMatching(ApplyStatus(rs, id, st), q);
          KeepMatching([x'] + moved, q);
          [x'] + KeepMatching(moved, q);
          [x'] + ApplyStatus(kept, id, st);
          { ApplyStatusCons(x, kept, id, st); }
          ApplyStatus([x] + kept, id, st);
          ApplyStatus(KeepMatching(rs, q), id, st);
        }
      } else {
        calc {
          KeepMatching(ApplyStatus(rs, id, st), q);
          KeepMatching([x'] + moved, q);
          KeepMatching(moved, q);
          ApplyStatus(kept, id, st);
          ApplyStatus(KeepMatching(rs, q), id, st);
        }
      }
    }
  }

  lemma MatchesIgnoresStatus(x: Reservation, st: BookingStatus, q: string)
    ensures Matches(x.(status := st), q) == Matches(x, q)
  {
  }

  lemma KeepMatchingCons(x: Reservation, rest: seq<Reservation>, q: string)
    ensures KeepMatching([x] + rest, q) == if Matches(x, q) then [x] + KeepMatching(rest, q) else KeepMatching(rest, q)
  {
    assert ([x] + rest)[1..] == rest;
  }

  lemma ApplyStatusCons(x: Reservation, rest: seq<Reservation>, id: BookingId, st: BookingStatus)
    ensures ApplyStatus([x] + rest, id, st) == [if x.id == id then x.(status := st) else x] + ApplyStatus(rest, id, st)
  {
  }

  /**
    The store-side counterpart of `ApplyStatus`, written the way the server
    sees a status write: every booking with id `id` gets status `st`.
  */
  function Restatus(bs: seq<Booking>, id: BookingId, st: BookingStatus): (r: seq<Booking>)
    ensures |r| == |bs|
    ensures forall k | 0 <= k < |bs| :: r[k] == if bs[k].id == id then bs[k].(status := st) else bs[k]
  {
    if |bs| == 0 then []
    else
      var last := bs[|bs| - 1];
      Restatus(bs[..|bs| - 1], id, st) + [if last.id == id then last.(status := st) else last]
  }

  /** With unique ids, changing one booking's status is changing the status of its id. */
  lemma StatusChangeIsRestatus(s: Store, s': Store, i: nat, st: BookingStatus)
    requires UniqueIds(s.bookings)
    requires OnlyStatusChanged(s, s', i, st)
    ensures s'.bookings == Restatus(s.bookings, s.bookings[i].id, st)
  {
    forall k | 0 <= k < |s.bookings|
      ensures s'.bookings[k] == Restatus(s.bookings, s.bookings[i].id, st)[k]
    {
      if k < i {
        assert s.bookings[k].id != s.bookings[i].id;
      } else if k > i {
        assert s.bookings[i].id != s.bookings[k].id;
      }
    }
  }

  lemma {:induction false} RestatusCons(x: Booking, rest: seq<Booking>, id: BookingId, st: BookingStatus)
    ensures Restatus([x] + rest, id, st) == Restatus([x], id, st) + Restatus(rest, id, st)
    decreases |rest|
  {
    if |rest| > 0 {
      var n := |rest| - 1;
      assert ([x] + rest)[..|rest|] == [x] + rest[..n];
      RestatusCons(x, rest[..n], id, st);
    }
  }

  /** Selecting and ordering bookings does not depend on their status. */
  lemma {:induction false} NewestFirstRestatus(s: Store, s': Store, a: Audience, bs: seq<Booking>, id: BookingId, st: BookingStatus)
    requires s'.trips == s.trips
    ensures NewestFirst(s', a, Restatus(bs, id, st)) == Restatus(NewestFirst(s, a, bs), id, st)
    decreases |bs|
  {
    if |bs| > 0 {
      var n := |bs| - 1;
      var bs' := Restatus(bs, id, st);
      NewestFirstRestatus(s, s', a, bs[..n], id, st);
      var last, last' := bs[n], bs'[n];
      assert Restatus([last], id, st) == [last'];
      assert Shows(s', a, last') == Shows(s, a, last);
      var rest := NewestFirst(s, a, bs[..n]);
      var rest' := NewestFirst(s', a, bs'[..n]);
      assert rest' == Restatus(rest, id, st);
      if Shows(s, a, last) {
        assert NewestFirst(s, a, bs) == [last] + rest;
        assert NewestFirst(s', a, bs') == [last'] + rest';
        RestatusCons(last, rest, id, st);
      } else {
        assert NewestFirst(s, a, bs) == rest;
        assert NewestFirst(s', a, bs') == rest';
      }
    }
  }

  lemma RowsRestatus(s: Store, s': Store, bs: seq<Booking>, id: BookingId, st: BookingStatus)
    requires s'.trips == s.trips && s'.users == s.users
    ensures Rows(s', Restatus(bs, id, st)) == ApplyStatus(Rows(s, bs), id, st)
  {
  }

  /**
    A status write on the server and the local `map` agree: the dashboard a
    driver would reload equals the one they already have with the update applied.
  */
  lemma StatusWriteMatchesLocalUpdate(s: Store, s': Store, i: nat, st: BookingStatus, driverId: UserId)
    requires UniqueIds(s.bookings)
    requires OnlyStatusChanged(s, s', i, st)
    ensures DriverReservations(s', driverId) == ApplyStatus(DriverReservations(s, driverId), s.bookings[i].id, st)
  {
    var id := s.bookings[i].id;
    StatusChangeIsRestatus(s, s', i, st);
    NewestFirstRestatus(s, s', Driver(driverId), s.bookings, id, st);
    RowsRestatus(s, s', DriverBookings(s, driverId), id, st);
  }

  /** After `confirmBooking`, `handleConfirm`'s local list equals a fresh reload. */
  lemma ConfirmKeepsDashboardInSync(s: Store, bookingId: BookingId, driverId: UserId)
    requires UniqueIds(s.bookings)
    ensures var r := ConfirmBooking(s, bookingId, driverId);
            DriverReservations(r.store, driverId)
            == HandleConfirm(DriverReservations(s, driverId), bookingId, r.outcome.Success?)
  {
    var r := ConfirmBooking(s, bookingId, driverId);
    if r.outcome.Success? {
      StatusWriteMatchesLocalUpdate(s, r.store, FindBooking(s.bookings, bookingId).value, Confirmed, driverId);
    }
  }

  /** After the driver's `cancelBooking`, `handleCancel`'s local list equals a fresh reload. */
  lemma CancelKeepsDashboardInSync(s: Store, bookingId: BookingId, driverId: UserId)
    requires UniqueIds(s.bookings)
    ensures var r := CancelBooking(s, bookingId, driverId, true);
            DriverReservations(r.store, driverId)
            == HandleCancel(DriverReservations(s, driverId), bookingId, r.outcome.Success?)
  {
    var r := CancelBooking(s, bookingId, driverId, true);
    if r.outcome.Success? {
      StatusWriteMatchesLocalUpdate(s, r.store, FindBooking(s.bookings, bookingId).value, Cancelled, driverId);
    }
  }

  /** Surrounding spaces in the query take part in the match: "ana " misses "Ana". */
  lemma UntrimmedQueryMatters()
    ensures var r := Reservation("b1", "Ana", "Lome", "Kara", 1, 5, Pending);
            SearchFilter([r], "ana") == [r] && SearchFilter([r], "ana ") == []
  {
    var r := Reservation("b1", "Ana", "Lome", "Kara", 1, 5, Pending);
    SampleLowerCase();
    assert IsPrefix("ana", "ana");
    assert Trim("ana") == "ana";
    assert !AllSpace("ana ") by { assert !IsSpace("ana "[0]); }
    assert !Contains("ana", "ana ");
    assert !Contains("lome", "ana ") by {
      assert "lome"[1..] == "ome" && "ome"[1..] == "me" && "me"[1..] == "e" && "e"[1..] == "";
    }
    assert !Contains("kara", "ana ") by {
      assert "kara"[1..] == "ara" && "ara"[1..] == "ra" && "ra"[1..] == "a" && "a"[1..] == "";
    }
    assert [r][1..] == [];
  }

  lemma SampleLowerCase()
    ensures ToLower("Ana") == "ana" && ToLower("ana") == "ana" && ToLower("ana ") == "ana "
    ensures ToLower("Lome") == "lome" && ToLower("Kara") == "kara"
  {
  }
}
