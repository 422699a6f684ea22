/** The abstract in-memory store that stands in for the database: the rows the
    booking engine reads, and the one table (bookings) it writes. */
module Store {
  import opened Common

  datatype TicketStatus = Reserved | Paid

  datatype TicketType = TicketType(id: int, isRemote: bool, includesHotel: bool)

  datatype Enrollment = Enrollment(id: int, userId: int)

  datatype Ticket = Ticket(id: int, enrollmentId: int, ticketTypeId: int, status: TicketStatus)

  datatype Hotel = Hotel(id: int, name: string, image: string)

  datatype Room = Room(id: int, name: string, capacity: int, hotelId: int)

  datatype Booking = Booking(id: int, userId: int, roomId: int)

  /** A hotel row together with its rooms, as the hotel lookup includes them. */
  datatype HotelWithRooms = HotelWithRooms(hotel: Hotel, rooms: set<Room>)

  /** `enrollments` is keyed by user id and `tickets` by enrollment id (the
      first ticket of that enrollment); `ticketTypes` and `rooms` are keyed by
      their own ids. `nextBookingId` is the booking table's autoincrement. */
  datatype Store = Store(
    enrollments: map<int, Enrollment>,
    tickets: map<int, Ticket>,
    ticketTypes: map<int, TicketType>,
    hotels: seq<Hotel>,
    rooms: map<int, Room>,
    bookings: seq<Booking>,
    nextBookingId: int)

  /** The number of bookings that reference `roomId`: the length of the room's
      `Booking` relation. */
  function Occupancy(bookings: seq<Booking>, roomId: int): (n: nat)
    ensures n <= |bookings|
  {
    if |bookings| == 0 then 0
    else (if bookings[0].roomId == roomId then 1 else 0) + Occupancy(bookings[1..], roomId)
  }

  /** What the database schema guarantees: every row sits under its own key
      (an enrollment under its user, a ticket under its enrollment, ticket
      types and rooms under their ids), every ticket's type exists, booking
      ids are unique and below the autoincrement, and every booking
      references an existing room. */
  predicate WellFormed(s: Store) {
    && (forall u :: u in s.enrollments ==> s.enrollments[u].userId == u)
    && (forall e :: e in s.tickets ==> s.tickets[e].enrollmentId == e)
    && (forall k :: k in s.ticketTypes ==> s.ticketTypes[k].id == k)
    && (forall e :: e in s.tickets ==> s.tickets[e].ticketTypeId in s.ticketTypes)
    && (forall k :: k in s.rooms ==> s.rooms[k].id == k)
    && (forall i :: 0 <= i < |s.bookings| ==> s.bookings[i].id < s.nextBookingId)
    && (forall i, j :: 0 <= i < j < |s.bookings| ==> s.bookings[i].id != s.bookings[j].id)
    && (forall i :: 0 <= i < |s.bookings| ==> s.bookings[i].roomId in s.rooms)
  }

  /** The room lookup: the room with that id, if any. */
  function FindRoom(s: Store, roomId: int): (r: Option<Room>)
    ensures r.Some? <==> roomId in s.rooms
    ensures r.Some? ==> r.value == s.rooms[roomId]
  {
    if roomId in s.rooms then Some(s.rooms[roomId]) else None
  }

  /** The hotel lookup with its rooms: the first hotel with that id, together
      with every room that belongs to it; none when no hotel has that id. */
  function FindHotelWithRooms(s: Store, hotelId: int): (r: Option<HotelWithRooms>)
    ensures r.None? <==> forall i :: 0 <= i < |s.hotels| ==> s.hotels[i].id != hotelId
    ensures r.Some? ==> r.value.hotel in s.hotels && r.value.hotel.id == hotelId
    ensures r.Some? ==> forall room :: room in r.value.rooms <==> room in s.rooms.Values && room.hotelId == hotelId
  {
    match IndexWhere(s.hotels, (h: Hotel) => h.id == hotelId)
    case None => None
    case Some(i) => Some(HotelWithRooms(s.hotels[i], set room | room in s.rooms.Values && room.hotelId == hotelId))
  }
}
