/** The hotel catalog reads, behind the same read-path entitlement chain as
    viewing a booking. Neither operation writes: they take a store and return
    no new one. */
module HotelsService {
  import opened Common
  import opened Store
  import opened Entitlement

  /** Every hotel, once the user is entitled to lodging. The hotel-list guard
      `if (!hotels)` tests an array, which is always truthy, so an empty
      catalog is a success. */
  function GetHotels(s: Store, userId: int): (r: Result<seq<Hotel>>)
    ensures !Enrolled(s, userId) ==> r == Err(NotFound)
    ensures Enrolled(s, userId) && !HasTicket(s, userId) ==> r == Err(NotFound)
    ensures HasTicket(s, userId) && !TicketPaid(s, userId) ==> r == Err(Unauthorized)
    ensures TicketPaid(s, userId) && TypeKnown(s, userId) && !IncludesHotel(s, userId) ==> r == Err(Unauthorized)
    ensures r.Ok? <==> LodgingEntitled(s, userId)
    ensures r.Ok? ==> r.value == s.hotels
    ensures r != Err(Forbidden)
  {
    match ReadGate(s, userId)
    case Fail(kind) => Err(kind)
    case Pass => Ok(s.hotels)
  }

  /** The hotel `hotelId` with all its rooms, once the user is entitled to
      lodging; NotFound when no hotel has that id. */
  function GetRoomsAvailable(s: Store, userId: int, hotelId: int): (r: Result<HotelWithRooms>)
    ensures !Enrolled(s, userId) ==> r == Err(NotFound)
    ensures Enrolled(s, userId) && !HasTicket(s, userId) ==> r == Err(NotFound)
    ensures HasTicket(s, userId) && !TicketPaid(s, userId) ==> r == Err(Unauthorized)
    ensures TicketPaid(s, userId) && TypeKnown(s, userId) && !IncludesHotel(s, userId) ==> r == Err(Unauthorized)
    ensures LodgingEntitled(s, userId) && (forall i :: 0 <= i < |s.hotels| ==> s.hotels[i].id != hotelId) ==> r == Err(NotFound)
    ensures r.Ok? <==> LodgingEntitled(s, userId) && exists i :: 0 <= i < |s.hotels| && s.hotels[i].id == hotelId
    ensures r.Ok? ==> r.value.hotel in s.hotels && r.value.hotel.id == hotelId
    ensures r.Ok? ==> forall room :: room in r.value.rooms <==> room in s.rooms.Values && room.hotelId == hotelId
    ensures r != Err(Forbidden)
  {
    match ReadGate(s, userId)
    case Fail(kind) => Err(kind)
    case Pass =>
      match FindHotelWithRooms(s, hotelId)
      case None => Err(NotFound)
      case Some(hotel) => Ok(hotel)
  }

  /** Neither catalog read consults `isRemote`. */
  lemma CatalogIgnoresRemote(s: Store, userId: int, hotelId: int, typeId: int, remote: bool)
    requires typeId in s.ticketTypes
    ensures var t := s.(ticketTypes := s.ticketTypes[typeId := s.ticketTypes[typeId].(isRemote := remote)]);
            GetHotels(t, userId) == GetHotels(s, userId) && GetRoomsAvailable(t, userId, hotelId) == GetRoomsAvailable(s, userId, hotelId)
  {
    ReadGateIgnoresRemote(s, userId, typeId, remote);
  }
}
