/** What a controller sends back: a status code with a body, or nothing at
    all when no branch of its error handler matches. */
module Http {
  import opened Common
  import opened Store

  const OK := 200
  const BAD_REQUEST := 400
  const UNAUTHORIZED := 401
  const FORBIDDEN := 403
  const NOT_FOUND := 404

  datatype Body =
    | NoBody
    | BookingBody(booking: Booking)
    | IdBody(id: int)
    | HotelsBody(hotels: seq<Hotel>)
    | HotelBody(hotel: HotelWithRooms)

  datatype Response = Send(status: int, body: Body) | NoResponse

  /** The error handler of the three reading endpoints: a name check for the
      Unauthorized error, and 404 for anything else. */
  function ReadErrorStatus(kind: ErrorKind): (status: int)
    ensures status == UNAUTHORIZED <==> kind == Unauthorized
    ensures status == UNAUTHORIZED || status == NOT_FOUND
  {
    if kind == Unauthorized then UNAUTHORIZED else NOT_FOUND
  }
}
