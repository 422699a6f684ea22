/** The booking endpoints: validate `roomId`, call the service, and map its
    result or error kind to a status. The view endpoint maps Unauthorized to
    401 and every other error to 404; the two mutations map Forbidden to 403
    and NotFound to 404 and send nothing for any other error. */
module BookingsController {
  import opened Common
  import opened Store
  import opened Entitlement
  import opened Http
  import Repo = BookingRepository
  import Service = BookingsService

  /** The guard `roomId < 1 || !roomId` on an optional integer: an absent
      value is falsy, and so is zero. */
  predicate RejectsRoomId(roomId: Option<int>)
    ensures RejectsRoomId(roomId) <==> roomId.None? || roomId.value < 1
  {
    match roomId
    case None => true
    case Some(n) => n < 1 || n == 0
  }

  /** The mutation endpoints' error handler: only the Forbidden and NotFound
      names are matched; any other error falls through without a response. */
  function MutationErrorResponse(kind: ErrorKind): (r: Response)
    ensures r == Send(FORBIDDEN, NoBody) <==> kind == Forbidden
    ensures r == Send(NOT_FOUND, NoBody) <==> kind == NotFound
    ensures r.NoResponse? <==> kind == Unauthorized || kind == Crash
  {
    match kind
    case Forbidden => Send(FORBIDDEN, NoBody)
    case NotFound => Send(NOT_FOUND, NoBody)
    case _ => NoResponse
  }

  /** GET /booking. */
  function GetMyBooking(s: Store, userId: int): (r: Response)
    ensures r.Send? && r.status in {OK, UNAUTHORIZED, NOT_FOUND}
    ensures r.status == OK <==> LodgingEntitled(s, userId) && Repo.HasBookingOf(s.bookings, userId)
    ensures r.status == OK ==> r.body.BookingBody? && r.body.booking.userId == userId && r.body.booking in s.bookings
    ensures r.status == OK ==> r.body.BookingBody? && exists i :: Repo.FirstOfUser(s.bookings, i, userId) && s.bookings[i] == r.body.booking
    ensures r.status == UNAUTHORIZED <==> LodgingRefused(s, userId)
    ensures !Enrolled(s, userId) ==> r == Send(NOT_FOUND, NoBody)
  {
    match Service.FindBooking(s, userId)
    case Ok(booking) => Send(OK, BookingBody(booking))
    case Err(kind) => Send(ReadErrorStatus(kind), NoBody)
  }

  /** PUT /booking/:bookingId with body `{roomId}`. */
  function UpdateBooking(s: Store, userId: int, bookingId: int, roomId: Option<int>): (r: (Response, Store))
    ensures RejectsRoomId(roomId) ==> r == (Send(BAD_REQUEST, NoBody), s)
    ensures r.0.Send? ==> r.0.status in {OK, BAD_REQUEST, FORBIDDEN, NOT_FOUND}
    ensures (r.0.Send? && r.0.status == BAD_REQUEST) <==> RejectsRoomId(roomId)
    ensures r.0 == Send(OK, IdBody(bookingId))
            <==> !RejectsRoomId(roomId) && Service.CanUpdateBooking(s, userId, roomId.value, bookingId)
    ensures r.0.Send? && r.0.status == OK ==> r.0.body == IdBody(bookingId)
    ensures r.0.Send? && r.0.status == OK
            ==> roomId.Some? && roomId.value in s.rooms
                && r.1 == s.(bookings := Repo.Repoint(s.bookings, bookingId, s.rooms[roomId.value].id))
    ensures r.0 == Send(FORBIDDEN, NoBody)
            <==> !RejectsRoomId(roomId) && Service.UpdateRefused(s, userId, roomId.value, bookingId)
    ensures r.0 == Send(NOT_FOUND, NoBody)
            <==> !RejectsRoomId(roomId)
                 && (!Enrolled(s, userId)
                     || (InPersonLodgingEntitled(s, userId) && Service.OwnsBooking(s, bookingId, userId) && roomId.value !in s.rooms))
    ensures r.0.NoResponse?
            <==> !RejectsRoomId(roomId)
                 && ((TicketPaid(s, userId) && !TypeKnown(s, userId))
                     || (InPersonLodgingEntitled(s, userId) && !Repo.HasBookingWithId(s.bookings, bookingId)))
    ensures !(r.0.Send? && r.0.status == OK) ==> r.1 == s
  {
    if RejectsRoomId(roomId) then (Send(BAD_REQUEST, NoBody), s)
    else
      match Service.UpdateBooking(s, userId, roomId.value, bookingId)
      case (Ok(booking), after) => (Send(OK, IdBody(booking.id)), after)
      case (Err(kind), after) => (MutationErrorResponse(kind), after)
  }

  /** POST /booking with body `{roomId}`. */
  function MakeBooking(s: Store, userId: int, roomId: Option<int>): (r: (Response, Store))
    ensures RejectsRoomId(roomId) ==> r == (Send(BAD_REQUEST, NoBody), s)
    ensures r.0.Send? ==> r.0.status in {OK, BAD_REQUEST, FORBIDDEN, NOT_FOUND}
    ensures (r.0.Send? && r.0.status == BAD_REQUEST) <==> RejectsRoomId(roomId)
    ensures r.0 == Send(OK, IdBody(s.nextBookingId))
            <==> !RejectsRoomId(roomId) && Service.CanMakeBooking(s, userId, roomId.value)
    ensures r.0.Send? && r.0.status == OK ==> r.0.body == IdBody(s.nextBookingId) && |r.1.bookings| == |s.bookings| + 1
    ensures r.0.Send? && r.0.status == OK
            ==> roomId.Some? && roomId.value in s.rooms
                && r.1 == s.(bookings := s.bookings + [Booking(s.nextBookingId, userId, s.rooms[roomId.value].id)],
                             nextBookingId := s.nextBookingId + 1)
    ensures r.0 == Send(FORBIDDEN, NoBody)
            <==> !RejectsRoomId(roomId) && Service.MakeRefused(s, userId, roomId.value)
    ensures r.0 == Send(NOT_FOUND, NoBody)
            <==> !RejectsRoomId(roomId)
                 && (!Enrolled(s, userId)
                     || (InPersonLodgingEntitled(s, userId) && !Repo.HasBookingOf(s.bookings, userId) && roomId.value !in s.rooms))
    ensures r.0.NoResponse? <==> !RejectsRoomId(roomId) && TicketPaid(s, userId) && !TypeKnown(s, userId)
    ensures !(r.0.Send? && r.0.status == OK) ==> r.1 == s
  {
    if RejectsRoomId(roomId) then (Send(BAD_REQUEST, NoBody), s)
    else
      match Service.MakeBooking(s, userId, roomId.value)
      case (Ok(booking), after) => (Send(OK, IdBody(booking.id)), after)
      case (Err(kind), after) => (MutationErrorResponse(kind), after)
  }
}
