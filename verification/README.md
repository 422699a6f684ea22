# Hotel booking eligibility and allocation engine

A Dafny model of the booking core of an event-ticketing service. A user whose
enrollment holds a paid ticket, of a type that includes lodging, may view their
booking and browse hotels. If the event is also in person, they may book a room
or move their booking to another room, as long as the room's capacity allows.

The model is an immutable `Store`:
- enrollments by user;
- the first ticket of each enrollment;
- ticket types with `includesHotel` and `isRemote`;
- hotels, and rooms with a capacity;
- the bookings `(id, userId, roomId)`, with an autoincrement counter.

Every service is a pure function. A mutation returns `(Result, Store)`. A read
returns a `Result` only, so it cannot change the store.

Errors form an enum: `NotFound | Unauthorized | Forbidden | Crash`. `Crash`
stands for a JavaScript `TypeError`, raised when the code reads a property of a
row that does not exist. It does not carry any of the domain error names.

The controllers turn a result into `Send(status, body)`, or into `NoResponse`
when their error handler matches no branch. `Api.Handle` joins the five
endpoints into one state machine, and `Api.Run` serves a sequence of requests
one at a time.

Modules follow the source layout:
- `Store`: entities and lookups.
- `BookingRepository`: the two store transitions, insert and repoint.
- `Entitlement`: the two check chains the services open with.
- `BookingsService`, `HotelsService`: the services.
- `Http`, `BookingsController`, `HotelsController`: the HTTP layer. The three reading endpoints have identical error handlers, written once as `Http.ReadErrorStatus`.
- `Invariants`: at most one booking per user, and no room above capacity.
- `Api`: the request dispatcher.

Two behaviours of the code are kept as written:
- The capacity test is strict equality, `capacity == bookings`. A room that is
  already over capacity passes it (`BookingsService.OverfullRoomAcceptsBooking`).
- In the change operation, a booking id that matches no row is dereferenced
  without a check. The thrown `TypeError` matches neither branch of the
  controller's handler, so no response is sent (`Api.MissingBookingGoesUnanswered`).

A PAID ticket whose type row is missing would crash the same way, on the
`includesHotel` read. The model keeps that branch as `Crash`. It also proves
that under the schema's referential integrity (`Store.WellFormed`) neither
check chain crashes.

## Model

| member | source | states |
|---|---|---|
| `Store.Occupancy` | src/services/bookings-service/index.ts:62 | the length of a room's booking relation: the bookings that reference the room, never more than the bookings stored |
| `Store.FindRoom` | src/services/bookings-service/index.ts:95-98 | the room lookup finds a room exactly when its id is a room key, and returns that room |
| `Store.FindHotelWithRooms` | src/repositories/hotel-repository/index.ts:7-16 | no hotel exactly when no hotel has the id; otherwise a stored hotel with that id, together with exactly the rooms whose `hotelId` is that id |
| `BookingRepository.FindBookingByUserId` | src/repositories/booking-repository/index.ts:3-12 | none exactly when the user holds no booking; otherwise the first booking in the table that the user holds |
| `BookingRepository.FindBookingById` | src/repositories/booking-repository/index.ts:14-23 | none exactly when no booking has the id; otherwise the first booking with that id |
| `BookingRepository.Repoint` | src/repositories/booking-repository/index.ts:25-34 | same length; every id and owner kept; bookings with the id now point at the new room; every other booking is unchanged |
| `BookingRepository.UpdateBooking` | src/repositories/booking-repository/index.ts:25-34 | the updated row keeps the id and the owner of the stored booking and carries the new room; only the bookings table changes; a missing id writes nothing |
| `BookingRepository.UpdateIgnoresUserId` | src/repositories/booking-repository/index.ts:25 | the update's `userId` argument has no effect on the result |
| `BookingRepository.CreateBooking` | src/repositories/booking-repository/index.ts:36-43 | appends exactly one booking for the given user and room, under the autoincrement id, which is fresh in a well-formed store; nothing else changes |
| `BookingRepository.OccupancyAppend` | src/repositories/booking-repository/index.ts:36-43 | an insert adds one to its room's occupancy and leaves every other room's occupancy unchanged |
| `BookingRepository.OccupancyRepoint` | src/repositories/booking-repository/index.ts:25-34 | with unique ids, a repoint moves exactly one unit of occupancy from the booking's old room to its new room |
| `Entitlement.ReadGate` | src/services/bookings-service/index.ts:9-21 | no enrollment or no ticket gives NotFound; an unpaid ticket, or a type without hotel, gives Unauthorized; a paid ticket with a missing type crashes; passes exactly when the user is entitled to lodging |
| `Entitlement.MutationGate` | src/services/bookings-service/index.ts:75-88 | no enrollment gives NotFound; no ticket, unpaid, no hotel, or a remote type gives Forbidden; Forbidden exactly when an enrolled user lacks in-person lodging without the type-row crash; passes exactly when the user is entitled to in-person lodging |
| `Entitlement.GatesDiverge` | src/services/bookings-service/index.ts:32-45 | both chains give NotFound exactly when there is no enrollment; the read chain's Unauthorized and missing-ticket NotFound are the mutation chain's Forbidden; passing the mutation chain implies passing the read chain |
| `Entitlement.WellFormedGatesDoNotCrash` | src/services/bookings-service/index.ts:18-19 | when every ticket's type exists, neither chain crashes |
| `Entitlement.ReadGateIgnoresRemote` | src/services/bookings-service/index.ts:18-21 | changing `isRemote` on any ticket type does not change the read chain's verdict |
| `BookingsService.FindBooking` | src/services/bookings-service/index.ts:8-29 | errors in chain order (NotFound, NotFound, Unauthorized, then NotFound for no booking); success exactly when the user is entitled and holds a booking; the booking returned is the first one the user holds in the table; never Forbidden |
| `BookingsService.UpdateBooking` | src/services/bookings-service/index.ts:31-72 | each check gives its error kind in order; a missing booking id crashes; another user's booking is Forbidden; a missing room is NotFound; a room whose capacity equals its occupancy is Forbidden; Forbidden exactly on a ticket failure, another user's booking or a full room; success exactly when all checks pass; on success only the booking's room changes; on failure the store is unchanged; never Unauthorized |
| `BookingsService.MakeBooking` | src/services/bookings-service/index.ts:74-110 | each check gives its error kind in order; an existing booking is Forbidden; a missing room is NotFound; a full room is Forbidden; Forbidden exactly on a ticket failure, an existing booking or a full room; success exactly when all checks pass; on success exactly one fresh booking for the user and room is appended; on failure the store is unchanged; never Unauthorized |
| `BookingsService.OwnBookingCountsTowardsRoom` | src/services/bookings-service/index.ts:57-66 | in a well-formed store, the user's own booking counts towards its room's occupancy, so moving it into that same room is Forbidden exactly when the room's capacity equals its occupancy and succeeds otherwise, for any capacity |
| `BookingsService.UpdateIntoOwnFullRoomForbidden` | src/services/bookings-service/index.ts:57-64 | moving a booking into the single-bed room it already occupies is Forbidden, because the user's own booking counts towards that room's occupancy |
| `BookingsService.OverfullRoomAcceptsBooking` | src/services/bookings-service/index.ts:100-102 | a room that already holds more bookings than its capacity passes the equality test and goes further over capacity |
| `BookingsService.FindBookingIgnoresRemote` | src/services/bookings-service/index.ts:18-21 | viewing a booking does not depend on `isRemote` |
| `HotelsService.GetHotels` | src/services/hotels-service/index.ts:7-27 | the read-chain errors in order; success exactly when the user is entitled to lodging; it returns every hotel, and an empty list is a success |
| `HotelsService.GetRoomsAvailable` | src/services/hotels-service/index.ts:29-49 | the read-chain errors in order; an entitled user asking for an absent hotel gets NotFound; success exactly when the user is entitled and the hotel exists; it returns that hotel with all its rooms |
| `HotelsService.CatalogIgnoresRemote` | src/services/hotels-service/index.ts:17-20 | neither catalog read depends on `isRemote` |
| `BookingsController.RejectsRoomId` | src/controllers/bookings-controller.ts:47-50 | the `roomId` guard rejects exactly an absent id or one below 1 |
| `Http.ReadErrorStatus` | src/controllers/bookings-controller.ts:11-16 | the error handler that the view endpoint and both hotel endpoints share: Unauthorized becomes 401, and every other kind 404 |
| `BookingsController.MutationErrorResponse` | src/controllers/bookings-controller.ts:32-41 | Forbidden becomes 403 and NotFound 404; any other kind sends no response |
| `BookingsController.GetMyBooking` | src/controllers/bookings-controller.ts:6-17 | the status is always 200, 401 or 404; 200 exactly when the user is entitled and holds a booking, and the body is the first booking the user holds; 401 exactly when the ticket is unpaid or excludes lodging |
| `BookingsController.UpdateBooking` | src/controllers/bookings-controller.ts:19-42 | 400 exactly for a bad `roomId`, and then the service is not invoked; 200 with the requested booking id exactly when the service succeeds, and then the store is the old one with that booking moved to the room; 403 exactly on the service's Forbidden conditions; 404 and no response exactly for their service conditions; the store changes only on 200 |
| `BookingsController.MakeBooking` | src/controllers/bookings-controller.ts:44-67 | 400 exactly for a bad `roomId`, and then the service is not invoked; 200 with the new id exactly when the service succeeds, and then exactly the booking `(new id, user, room)` is appended; 403 exactly on the service's Forbidden conditions; 404 exactly for no enrollment or a missing room; the store changes only on 200 |
| `HotelsController.GetHotelsAvailable` | src/controllers/hotels-controller.ts:6-17 | the status is always 200, 401 or 404; 200 with every hotel exactly when the user is entitled to lodging; 401 exactly when the ticket is unpaid or excludes lodging |
| `HotelsController.GetRoom` | src/controllers/hotels-controller.ts:19-32 | the status is always 200, 401 or 404; 200 exactly when the user is entitled and the hotel exists, and the body is that hotel with exactly its rooms; 401 exactly when the ticket is unpaid or excludes lodging |
| `Invariants.MakeBookingPreservesInvariant` | src/services/bookings-service/index.ts:90-104 | making a booking keeps the store well-formed, keeps one booking per user, and keeps every room within capacity |
| `Invariants.UpdateBookingPreservesInvariant` | src/services/bookings-service/index.ts:47-66 | changing a booking keeps the store well-formed, keeps one booking per user, and keeps every room within capacity |
| `Invariants.RepointPreservesInvariant` | src/services/bookings-service/index.ts:57-66 | moving an existing booking into an existing room that is below capacity, or into its own room, keeps the store well-formed, keeps one booking per user, and keeps every room within capacity |
| `Invariants.FindOwnBookingAfterRepoint` | src/repositories/booking-repository/index.ts:25-34 | with unique ids and one booking per user, the user's booking found after its room is changed is that booking, with the new room and nothing else different |
| `Invariants.FindBookingAfterUpdate` | src/services/bookings-service/index.ts:66-71 | with one booking per user, after a successful change, viewing returns the booking with the requested id, the caller as owner, and the new room |
| `Api.Handle` | src/routers/bookings-router.ts:7-11 | reads never change the store and answer only 200, 401 or 404; mutations answer only 200, 400, 403 or 404, or send nothing; the store changes only on 200; only a successful booking adds a row |
| `Api.Run` | src/routers/bookings-router.ts:7-11 | requests are served one at a time, each on the store the previous one left; one response per request; a sequence of reads only, or one in which no request is answered with 200, leaves the store unchanged |
| `Api.HandlePreservesInvariant` | src/services/bookings-service/index.ts:31-110 | every endpoint preserves the booking invariants |
| `Api.RunPreservesInvariant` | src/services/bookings-service/index.ts:31-110 | any sequence of requests served one at a time preserves the booking invariants |
| `Api.RunBookingCount` | src/repositories/booking-repository/index.ts:36-43 | after any sequence of requests, the booking count has grown by exactly the number of bookings answered with 200 |
| `Api.NoResponseOnlyForMissingBooking` | src/controllers/bookings-controller.ts:32-41 | in a well-formed store, only a change request whose booking id matches no row goes unanswered |
| `Api.MissingBookingGoesUnanswered` | src/services/bookings-service/index.ts:47-48 | an entitled user who changes a booking id that matches no row gets no response, and the store is unchanged |
| `Api.SecondPostForbidden` | src/services/bookings-service/index.ts:90-93 | after a successful booking, the same user's next booking request with a valid room id is 403 |
| `Api.PostThenGet` | src/services/bookings-service/index.ts:104-109 | after a successful booking, viewing the booking returns exactly the booking just made |
| `Api.PutThenGet` | src/services/bookings-service/index.ts:66-71 | with one booking per user, after a successful change, viewing the booking returns the same id and owner with the new room |

## Left out

- Database I/O is replaced by the abstract store. Query execution is not modelled, nor the generated `createdAt`/`updatedAt` timestamps. Nor is the `Room` row that the booking lookups include.
- Of the routers, only the mapping from method and path to endpoint is modelled, as the `Api.Request` cases. Express path matching and the `authenticateToken` middleware are left out. They are session plumbing: the model receives an already resolved `userId`.
- The check-then-act capacity race between concurrent requests is left out. Requests are atomic and sequential, which is why the invariants hold in this model.
- Error classes are an enum. The model assumes that the names the controllers compare (`forbiddenError`, `NotFoundError`, `UnauthorizedError`) are the names of the classes the services throw. The error module is not part of this model.
- JavaScript coercion of `roomId`, `bookingId` and `hotelId` is left out. Strings, `NaN` and fractions are not modelled. `roomId` is an optional integer, and the other two are integers.
- The address part of the enrollment lookup is not modelled: only the existence of an enrollment matters.
- The `if (!newBooking)` Forbidden branches after each write are in the model. They cannot be reached, because the create always returns its row, and the update is only reached once the booking is known to exist.
- `BookingRepository.UpdateBooking`: on a missing id the database client raises rather than returning no row. The model returns no row. That case cannot be reached from the service.
- The hotel repository's two lookups become plain lookups on the store. Hotels keep their stored order, and a hotel's rooms form a set.
- Response bodies are not modelled beyond `{id}` on a successful make or change. Examples are the `{}` body of a hotel-list 404 and the JSON shape of hotels and rooms.
