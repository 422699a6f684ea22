/** The hotel endpoints: Unauthorized becomes 401, every other error 404. */
module HotelsController {
  import opened Common
  import opened Store
  import opened Entitlement
  import opened Http
  import Service = HotelsService

  /** GET /hotels. */
  function GetHotelsAvailable(s: Store, userId: int): (r: Response)
    ensures r.Send? && r.status in {OK, UNAUTHORIZED, NOT_FOUND}
    ensures r.status == OK <==> LodgingEntitled(s, userId)
    ensures r.status == OK ==> r.body == HotelsBody(s.hotels)
    ensures r.status == UNAUTHORIZED <==> LodgingRefused(s, userId)
  {
    match Service.GetHotels(s, userId)
    case Ok(hotels) => Send(OK, HotelsBody(hotels))
    case Err(kind) => Send(ReadErrorStatus(kind), NoBody)
  }

  /** GET /hotels/:hotelId. */
  function GetRoom(s: Store, userId: int, hotelId: int): (r: Response)
    ensures r.Send? && r.status in {OK, UNAUTHORIZED, NOT_FOUND}
    ensures r.status == OK <==> LodgingEntitled(s, userId) && exists i :: 0 <= i < |s.hotels| && s.hotels[i].id == hotelId
    ensures r.status == OK ==> r.body.HotelBody? && r.body.hotel.hotel.id == hotelId && r.body.hotel.hotel in s.hotels
    ensures r.status == OK ==> (r.body.HotelBody? &&
              forall room :: room in r.body.hotel.rooms <==> room in s.rooms.Values && room.hotelId == hotelId)
    ensures r.status == UNAUTHORIZED <==> LodgingRefused(s, userId)
  {
    match Service.GetRoomsAvailable(s, userId, hotelId)
    case Ok(hotel) => Send(OK, HotelBody(hotel))
    case Err(kind) => Send(ReadErrorStatus(kind), NoBody)
  }
}
