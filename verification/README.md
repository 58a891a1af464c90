# Ride-sharing booking model

A Dafny model of the booking core of a ride-sharing web application (drivers
publish trips, passengers book seats). The model covers the server actions
on trips and bookings, the login endpoint's decision procedure, and the list
logic of the driver's reservation dashboard. Each server action becomes a
pure function from the store (users, trips keyed by id, and bookings in the
order they were created; the source sorts them by a `createdAt` timestamp,
see `Bookings.NewestFirst` under "Left out") to an answer and the store it leaves behind. The
session, the current time and fresh ids are parameters.

Modules:

- `Wrappers`: `Option` and `Result`.
- `Text`: JavaScript's `\s` white space, ASCII `toLowerCase`, `trim` and `includes`.
- `Seqs`: subsequences and reversal, used to state list order.
- `Store`: the entities, the failure kinds, the seat sums, and the capacity invariant `CapacityOk`.
  - A seat sum adds up the seats of one trip's bookings whose status passes a filter.
  - `createBooking`, `getTripForBooking` and `getAllTrips` each use a different status filter.
- `Bookings`: `createBooking`, `confirmBooking`, `cancelBooking` and `getTripForBooking`, plus the selection and order of the two booking lists.
- `Trips`: `createTrip`, `getDriverTrips`, `getAllTrips` and `deleteTrip`.
- `Capacity`: which actions keep `CapacityOk`, the two runs that break it, and corrected actions that provably keep it.
- `Login`: `POST /api/login`.
- `Reservations`: the driver dashboard's list logic.
  - The search filter.
  - The local status update after confirm or refuse.
  - Showing the action buttons on PENDING rows only.
  - A proof that the local update matches what the server wrote.

Where the code is loose, the model follows it as written:

- A booking's seat count has no lower bound. It is only compared with the free seats, so zero and negative counts pass the room check.
- `cancelBooking` takes the driver/passenger role from a caller-supplied flag.
- The booking is written for the request's `userId`, not the session's user.
- Trip deletion issues a single delete of the trip row. Whether its bookings go with it, or the delete is refused while bookings exist, depends on the database schema, which is not part of this model. The model leaves the bookings in place. The following are artifacts of that choice: the bookings left dangling; the `StorageError` answers of `ConfirmBooking` and of the driver path of `CancelBooking` for a booking whose trip is gone; and a passenger-path `CancelBooking` that succeeds on such a booking, where the source's load of the booking with its trip would fail first.

## Model

| member | source | states |
|---|---|---|
| Bookings.CreateBooking | app/actions/bookings.ts:16-85 | Checks run in order: session, trip exists, ACTIVE, departure date not before `now` (equal is accepted), room. Then the insert fails with the generic error when the id is taken or the passenger `userId` names no user, as the required relation makes the database refuse it. A failure leaves the store unchanged. Success means room ≥ seats, counting non-cancelled bookings. It appends exactly one PENDING booking: `seats × pricePerSeat`, with trip, user and seats copied from the request, and nothing else changes. |
| Bookings.ConfirmBooking | app/actions/bookings.ts:222-256 | Missing booking gives "not found". A caller who is not the trip's driver is refused and nothing changes. Otherwise the booking becomes CONFIRMED whatever its prior status; only that booking's status changes. |
| Bookings.CancelBooking | app/actions/bookings.ts:268-317 | Driver role: the caller must own the trip. Passenger role: the caller must own the booking. Refusal changes nothing. Success sets CANCELLED from any status, and only that booking's status changes. |
| Bookings.CancelIdempotent | app/actions/bookings.ts:307-315 | Cancelling a second time leaves the store as the first cancellation did. |
| Bookings.GetTripForBooking | app/actions/bookings.ts:328-364 | Missing trip gives "not found". Otherwise the remaining seats, summed over PENDING and CONFIRMED bookings, equal `createBooking`'s figure over non-cancelled ones. |
| Bookings.AcceptedIffPageShowsRoom | app/actions/bookings.ts:52-62 | Once the session, status and date checks pass, for a known passenger and a fresh id, a request is accepted exactly when the booking page shows at least that many seats left. |
| Bookings.NewestFirst | app/actions/bookings.ts:111-113 | A booking list holds exactly the bookings shown to its audience, each as many times as in the store, in reverse creation order (`createdAt desc`). |
| Bookings.PassengerBookings | app/actions/bookings.ts:89-114 | Exactly the user's own bookings, with their multiplicity, newest first. |
| Bookings.DriverBookings | app/actions/bookings.ts:159-182 | Exactly the bookings on trips the driver owns, with their multiplicity, newest first. |
| Bookings.ShownBagCount | app/actions/bookings.ts:89-114 | In the bag of bookings a list must hold, each booking shown to the audience occurs as often as in the store, and no other booking occurs. `NewestFirst` and the two lists return exactly that bag. |
| Store.SumByStatus | app/actions/bookings.ts:52-54 | With three statuses, the "not CANCELLED" total equals the "PENDING or CONFIRMED" total. It also equals the CONFIRMED total plus the PENDING total. |
| Store.SumUpdate | app/actions/bookings.ts:307-315 | Rewriting one booking changes a trip's total by exactly the change in that booking's share. |
| Trips.CreateTrip | app/actions/trips.ts:23-75 | A missing user or a non-driver is refused. Missing or empty coordinates are refused. Refusal writes nothing. Success adds one ACTIVE trip with the driver and every field copied, and changes nothing else. |
| Trips.DeleteTrip | app/actions/trips.ts:188-223 | Missing trip gives "not found" and a non-owner is refused; neither removes anything. For the owner, exactly that trip is removed. No booking is added, and bookings of other trips keep their multiplicity. Whether that trip's own bookings go too depends on the database schema, which is not part of this model (see the trip-deletion note above). |
| Trips.SelectSorted | app/actions/trips.ts:80-90 | A listing query returns the trips its `where` picks, each once, with the stored data, ordered by departure ascending. |
| Trips.GetDriverTrips | app/actions/trips.ts:78-100 | Exactly the driver's trips, whatever their status or date, ordered by departure. |
| Trips.GetAllTrips | app/actions/trips.ts:103-137 | Exactly the trips `createBooking` would consider (ACTIVE, departure ≥ now), each once and ordered by departure. Each row's remaining seats deduct CONFIRMED bookings only. |
| Trips.ListedSeatsVersusFreeSeats | app/actions/trips.ts:133-137 | The listing's figure exceeds the booking check's by exactly the PENDING seats. So it is never lower when no booking holds negative seats. |
| Capacity.CreateKeepsCapacity | app/actions/bookings.ts:52-76 | An accepted `createBooking` keeps every trip within capacity. |
| Capacity.CancelKeepsCapacity | app/actions/bookings.ts:307-315 | `cancelBooking` keeps every trip within capacity when no booking holds negative seats. |
| Capacity.ConfirmLiveKeepsCapacity | app/actions/bookings.ts:246-254 | Confirming a booking that is not CANCELLED keeps every trip within capacity. |
| Capacity.DeleteTripKeepsCapacity | app/actions/trips.ts:208-213 | Deleting a trip keeps every remaining trip within capacity. |
| Capacity.ConfirmCancelledOverbooks | app/actions/bookings.ts:246-254 | Confirming a CANCELLED booking can push a full trip over capacity. |
| Capacity.NegativeSeatsOverbook | app/actions/bookings.ts:56-76 | A negative seat request is accepted at a negative price. Cancelling it later leaves more seats held than the trip offers. |
| Capacity.ThreeSingleSeatsFillTrip | app/actions/bookings.ts:52-62 | Three one-seat bookings fill a three-seat trip; the page then shows 0 left, and a fourth request is refused for lack of seats. |
| Capacity.CreateBookingChecked | app/actions/bookings.ts:56-62 | Corrected creation refuses fewer than one seat and otherwise behaves as `createBooking`. |
| Capacity.ConfirmPendingOnly | app/actions/bookings.ts:222-256 | Corrected confirmation runs `confirmBooking`'s checks first (not found, then ownership) and refuses with their answer. It then refuses a booking that is not PENDING, leaving the store unchanged. Otherwise it behaves as `confirmBooking`. |
| Capacity.RunKeepsSound | app/actions/bookings.ts:52-62 | With both corrections, any sequence of bookings, confirmations, cancellations and trip deletions keeps capacity and keeps every seat count ≥ 1. |
| Login.Login | app/api/login/route.ts:9-78 | A missing field gives 400, checked before the format. An e-mail the regular expression rejects gives 400. An unknown lower-cased e-mail or a wrong password gives 401 "invalid credentials". Success goes to `/dashboard/driver/{id}/` or `/dashboard/passenger/{id}/` by role. |
| Login.EmailFormatIffRegex | app/api/login/route.ts:20-21 | The format check accepts exactly what `^[^\s@]+@[^\s@]+\.[^\s@]+$` matches. That means: no white space; exactly one `@` with something before it; and after it a `.` that is neither first nor last. |
| Login.LookupKeyOfValidEmail | app/api/login/route.ts:28-30 | For an e-mail that passed the format check, `trim` changes nothing; the lookup is by the lower-cased e-mail. |
| Login.NoAccountEnumeration | app/api/login/route.ts:32-45 | An unknown e-mail and a wrong password get the identical 401 answer. |
| Login.RedirectPathInjective | app/api/login/route.ts:74-76 | The redirect path determines both the role and the user id. |
| Text.TrimEmptyIffAllSpace | components/driver-reservations.tsx:99 | A query is blank after `trim` exactly when it is all white space. |
| Text.ContainsIffOccurs | components/driver-reservations.tsx:107-109 | `includes` holds exactly when the needle occurs at some position. |
| Reservations.SearchFilter | components/driver-reservations.tsx:98-113 | A blank query shows the full list. Otherwise the result is the order-preserving selection of rows, each kept as often as it occurs, where the lower-cased, untrimmed query occurs in the lower-cased passenger name, departure city or arrival city. |
| Reservations.KeepMatching | components/driver-reservations.tsx:104-110 | Filtering keeps exactly the matching rows, each as often as it occurs, in their order. |
| Reservations.MatchingBagCount | components/driver-reservations.tsx:104-110 | In the bag the filter must return, each matching row occurs as often as in the input list, and no other row occurs. `KeepMatching` and `SearchFilter` (non-blank query) return exactly that bag. |
| Reservations.UntrimmedQueryMatters | components/driver-reservations.tsx:99-104 | Trailing spaces in the query take part in the match: "ana " misses "Ana" while "ana" finds it. |
| Reservations.AfterAnswer | components/driver-reservations.tsx:153-166 | After a success, only the rows with that id change, only in status, and length and order are kept. After a failure the list is unchanged. |
| Reservations.AnsweredRowsCloseActions | components/driver-reservations.tsx:314 | Only PENDING rows offer confirm/refuse. After an answer the row offers neither, and other rows keep theirs. |
| Reservations.FilterCommutesWithStatus | components/driver-reservations.tsx:98-113 | Updating a row's status and then filtering gives the same list as filtering and then updating. |
| Reservations.StatusWriteMatchesLocalUpdate | components/driver-reservations.tsx:155-161 | With unique booking ids, the rows reloaded after a server status write equal the old rows with the local update applied. |
| Reservations.ConfirmKeepsDashboardInSync | components/driver-reservations.tsx:149-175 | After `confirmBooking`, the list `handleConfirm` keeps equals a fresh reload, on success and on failure. |
| Reservations.CancelKeepsDashboardInSync | components/driver-reservations.tsx:177-205 | After the driver's `cancelBooking`, the list `handleCancel` keeps equals a fresh reload. |

## Left out

- Database access: the store is an in-memory value. Errors the database would raise become the generic failure `StorageError`, and only three are modelled:
  - an insert under an id already in use;
  - a booking insert for a passenger `userId` with no user row;
  - following a booking to a trip that no longer exists.
- Sessions and cookies (`app/actions/auth.ts`, `app/actions/actionauth.ts`): a session is an `Option<UserId>` parameter. Sign-up, logout and the session-cookie format are not modelled.
- Password hashing: bcrypt's comparison is the parameter `passwordMatches`.
- Concurrency: the model is sequential. The race between the room check and the insert in `createBooking` is not represented.
- Dates and prices are integers, and the time of day is an uninterpreted string. Floating-point prices are not modelled. The trip form's date string is already a timestamp here, so parsing it is out of scope.
- Bookings.Bookable: the booking check and the public listing compare only the departure date, which is midnight of the departure day (`new Date` of a `type="date"` field, app/actions/trips.ts:59), with the current time. `departureTime` is never consulted, so a trip leaving later today is refused and unlisted from midnight on. The model compares the same two numbers and does not promise a check of the actual departure moment.
- Display-only data is not modelled:
  - the random duration estimate and the constant rating;
  - avatars and placeholder images;
  - vehicle descriptions and driver names in the listings;
  - date formatting.
- Bookings.CreateBooking: seat counts are integers. The source's `seats` is a JavaScript number, so a fractional count, or the NaN that `parseInt` gives for a cleared seat field (which passes the room comparison and then makes the insert fail), is not modelled.
- Bookings.NewestFirst: bookings with the same `createdAt` timestamp are listed here in reverse creation order, while the source's `orderBy: { createdAt: "desc" }` leaves the order of such ties open. `Reservations.StatusWriteMatchesLocalUpdate`, `Reservations.ConfirmKeepsDashboardInSync` and `Reservations.CancelKeepsDashboardInSync` therefore hold in the source only up to the order of tied rows.
- Trips.GetDriverTrips: `getDriverTrips` also returns each trip's bookings; the model returns the trips only.
- Lower-casing covers ASCII letters only; full Unicode case mapping is not modelled.
- Login: a request body with non-string fields, and the 500 answer to unexpected errors, are not modelled.
- Dashboard UI state is not modelled: loading and error flags, the processing marker, and the browser confirmation dialog before a refusal.
- Reservations.ToReservation: a booking whose passenger or trip is missing gets empty strings for those fields, where the source's join would fail. `CreateBooking` never writes a booking for an unknown passenger, so in the model only a deleted trip (see trip deletion above) leads there.
- Capacity.CancelKeepsCapacity: requires that no booking holds a negative seat count. As written, cancelling a negative booking can break capacity, as `Capacity.NegativeSeatsOverbook` shows.
- Trips.CreateTrip: no claim that it keeps capacity, for two reasons. Seat counts are not validated, so a trip with negative `availableSeats` starts over capacity. And a `freshId` equal to a deleted trip's id inherits that trip's dangling bookings, because the model's `DeleteTrip` keeps them.

## Findings

| source | as written | input that shows it | evidently intended | confidence | as-written member | corrected member |
|---|---|---|---|---|---|---|
| app/actions/bookings.ts:56-76 | The seat count has no lower bound: it is only compared with the free seats. A negative request passes the room check, is stored at a negative price, and makes room for others. | Start with a 2-seat trip and no bookings. Book -3 seats, then 5 seats, then cancel the -3 booking. The trip now holds 5 seats. | Requests for fewer than one seat are refused (the booking form's seat field has `min="1"`, app/dashboard/passenger/[userId]/trips/[tripId]/book/BookTripClientPage.tsx:290-293). | medium; not executed | Capacity.NegativeSeatsOverbook | Capacity.CreateBookingChecked |
| app/actions/bookings.ts:246-254 | Confirmation sets CONFIRMED from any status and does not re-check room, so a CANCELLED booking comes back into the count. | On a 1-seat trip, booking b1 (1 seat) is CANCELLED and b2 (1 seat) is PENDING. Confirming b1 leaves 2 seats held. | Only PENDING bookings can be confirmed, as the dashboard only offers confirmation for them (components/driver-reservations.tsx:314). | medium; not executed | Capacity.ConfirmCancelledOverbooks | Capacity.ConfirmPendingOnly |

`Capacity.RunKeepsSound` proves the corrected actions keep capacity over any sequence of bookings, confirmations, cancellations and trip deletions (trip creation is not among them; see `Trips.CreateTrip` under "Left out"). The rest of the model keeps the code's behaviour as written.
