/** The booking service: view, change and make a booking. Each operation is a
    fixed short-circuiting chain of checks; the two mutations end in at most
    one store transition, and every failure returns the store untouched. */
module BookingsService {
  import opened Common
  import opened Store
  import opened Entitlement
  import Repo = BookingRepository

  /** The capacity test as written: the room is refused only when its
      capacity EQUALS its booking count, so an over-full room passes. */
  predicate PassesCapacityCheck(s: Store, roomId: int)
    requires roomId in s.rooms
  {
    s.rooms[roomId].capacity != Occupancy(s.bookings, s.rooms[roomId].id)
  }

  /** The booking found under `bookingId` exists and is held by `userId`. */
  predicate OwnsBooking(s: Store, bookingId: int, userId: int) {
    var found := Repo.FindBookingById(s.bookings, bookingId);
    found.Some? && found.value.userId == userId
  }

  /** When making a booking succeeds. */
  predicate CanMakeBooking(s: Store, userId: int, roomId: int) {
    && InPersonLodgingEntitled(s, userId)
    && !Repo.HasBookingOf(s.bookings, userId)
    && roomId in s.rooms
    && PassesCapacityCheck(s, roomId)
  }

  /** When changing a booking succeeds. */
  predicate CanUpdateBooking(s: Store, userId: int, roomId: int, bookingId: int) {
    && InPersonLodgingEntitled(s, userId)
    && OwnsBooking(s, bookingId, userId)
    && roomId in s.rooms
    && PassesCapacityCheck(s, roomId)
  }

  /** When making a booking is refused with Forbidden: a ticket failure, a
      booking already held, or a room whose capacity equals its occupancy. */
  predicate MakeRefused(s: Store, userId: int, roomId: int) {
    || InPersonLodgingRefused(s, userId)
    || (InPersonLodgingEntitled(s, userId) && Repo.HasBookingOf(s.bookings, userId))
    || (InPersonLodgingEntitled(s, userId) && !Repo.HasBookingOf(s.bookings, userId)
        && roomId in s.rooms && !PassesCapacityCheck(s, roomId))
  }

  /** When changing a booking is refused with Forbidden: a ticket failure,
      another user's booking, or a room whose capacity equals its occupancy. */
  predicate UpdateRefused(s: Store, userId: int, roomId: int, bookingId: int) {
    || InPersonLodgingRefused(s, userId)
    || (InPersonLodgingEntitled(s, userId) && Repo.HasBookingWithId(s.bookings, bookingId) && !OwnsBooking(s, bookingId, userId))
    || (InPersonLodgingEntitled(s, userId) && OwnsBooking(s, bookingId, userId)
        && roomId in s.rooms && !PassesCapacityCheck(s, roomId))
  }

  /** The user's current booking, behind the read-path entitlement chain. */
  function FindBooking(s: Store, userId: int): (r: Result<Booking>)
    ensures !Enrolled(s, userId) ==> r == Err(NotFound)
    ensures Enrolled(s, userId) && !HasTicket(s, userId) ==> r == Err(NotFound)
    ensures HasTicket(s, userId) && !TicketPaid(s, userId) ==> r == Err(Unauthorized)
    ensures TicketPaid(s, userId) && TypeKnown(s, userId) && !IncludesHotel(s, userId) ==> r == Err(Unauthorized)
    ensures LodgingEntitled(s, userId) && !Repo.HasBookingOf(s.bookings, userId) ==> r == Err(NotFound)
    ensures r.Ok? <==> LodgingEntitled(s, userId) && Repo.HasBookingOf(s.bookings, userId)
    ensures r.Ok? ==> r.value.userId == userId && r.value in s.bookings
    ensures r.Ok? ==> exists i :: Repo.FirstOfUser(s.bookings, i, userId) && s.bookings[i] == r.value
    ensures r != Err(Forbidden)
  {
    match ReadGate(s, userId)
    case Fail(kind) => Err(kind)
    case Pass =>
      match Repo.FindBookingByUserId(s.bookings, userId)
      case None => Err(NotFound)
      case Some(booking) => Ok(booking)
  }

  /** Move the booking `bookingId` of `userId` to `roomId`. A booking id
      that matches no row is dereferenced anyway, which throws (Crash). */
  function UpdateBooking(s: Store, userId: int, roomId: int, bookingId: int): (r: (Result<Booking>, Store))
    ensures r.0.Err? ==> r.1 == s
    ensures !Enrolled(s, userId) ==> r.0 == Err(NotFound)
    ensures Enrolled(s, userId) && !HasTicket(s, userId) ==> r.0 == Err(Forbidden)
    ensures HasTicket(s, userId) && !TicketPaid(s, userId) ==> r.0 == Err(Forbidden)
    ensures TicketPaid(s, userId) && TypeKnown(s, userId) && (!IncludesHotel(s, userId) || IsRemote(s, userId)) ==> r.0 == Err(Forbidden)
    ensures InPersonLodgingEntitled(s, userId) && !Repo.HasBookingWithId(s.bookings, bookingId) ==> r.0 == Err(Crash)
    ensures InPersonLodgingEntitled(s, userId) && Repo.HasBookingWithId(s.bookings, bookingId) && !OwnsBooking(s, bookingId, userId)
            ==> r.0 == Err(Forbidden)
    ensures InPersonLodgingEntitled(s, userId) && OwnsBooking(s, bookingId, userId) && roomId !in s.rooms ==> r.0 == Err(NotFound)
    ensures InPersonLodgingEntitled(s, userId) && OwnsBooking(s, bookingId, userId) && roomId in s.rooms && !PassesCapacityCheck(s, roomId)
            ==> r.0 == Err(Forbidden)
    ensures r.0.Ok? <==> CanUpdateBooking(s, userId, roomId, bookingId)
    ensures r.0 == Err(Forbidden) <==> UpdateRefused(s, userId, roomId, bookingId)
    ensures r.0 == Err(Crash) <==> (TicketPaid(s, userId) && !TypeKnown(s, userId))
                                   || (InPersonLodgingEntitled(s, userId) && !Repo.HasBookingWithId(s.bookings, bookingId))
    ensures r.0 != Err(Unauthorized)
    ensures r.0.Ok? ==> r.0.value.id == bookingId && r.0.value.userId == userId && r.0.value.roomId == s.rooms[roomId].id
    ensures r.0.Ok? ==> r.1 == s.(bookings := Repo.Repoint(s.bookings, bookingId, s.rooms[roomId].id))
  {
    match MutationGate(s, userId)
    case Fail(kind) => (Err(kind), s)
    case Pass =>
      match Repo.FindBookingById(s.bookings, bookingId)
      case None => (Err(Crash), s)
      case Some(book) =>
        if book.userId != userId then (Err(Forbidden), s)
        else if Repo.FindBookingByUserId(s.bookings, userId).None? then (Err(Forbidden), s)
        else
          match FindRoom(s, roomId)
          case None => (Err(NotFound), s)
          case Some(room) =>
            if room.capacity == Occupancy(s.bookings, room.id) then (Err(Forbidden), s)
            else
              match Repo.UpdateBooking(s, room.id, bookingId, userId)
              case (None, _) => (Err(Forbidden), s)
              case (Some(updated), after) => (Ok(updated), after)
  }

  /** Book `roomId` for `userId`, who must not hold a booking yet. */
  function MakeBooking(s: Store, userId: int, roomId: int): (r: (Result<Booking>, Store))
    ensures r.0.Err? ==> r.1 == s
    ensures !Enrolled(s, userId) ==> r.0 == Err(NotFound)
    ensures Enrolled(s, userId) && !HasTicket(s, userId) ==> r.0 == Err(Forbidden)
    ensures HasTicket(s, userId) && !TicketPaid(s, userId) ==> r.0 == Err(Forbidden)
    ensures TicketPaid(s, userId) && TypeKnown(s, userId) && (!IncludesHotel(s, userId) || IsRemote(s, userId)) ==> r.0 == Err(Forbidden)
    ensures InPersonLodgingEntitled(s, userId) && Repo.HasBookingOf(s.bookings, userId) ==> r.0 == Err(Forbidden)
    ensures InPersonLodgingEntitled(s, userId) && !Repo.HasBookingOf(s.bookings, userId) && roomId !in s.rooms ==> r.0 == Err(NotFound)
    ensures InPersonLodgingEntitled(s, userId) && !Repo.HasBookingOf(s.bookings, userId) && roomId in s.rooms && !PassesCapacityCheck(s, roomId)
            ==> r.0 == Err(Forbidden)
    ensures r.0.Ok? <==> CanMakeBooking(s, userId, roomId)
    ensures r.0 == Err(Forbidden) <==> MakeRefused(s, userId, roomId)
    ensures r.0 == Err(Crash) <==> TicketPaid(s, userId) && !TypeKnown(s, userId)
    ensures r.0 != Err(Unauthorized)
    ensures r.0.Ok? ==> r.0.value == Booking(s.nextBookingId, userId, s.rooms[roomId].id)
    ensures r.0.Ok? ==> r.1 == s.(bookings := s.bookings + [r.0.value], nextBookingId := s.nextBookingId + 1)
  {
    match MutationGate(s, userId)
    case Fail(kind) => (Err(kind), s)
    case Pass =>
      if Repo.FindBookingByUserId(s.bookings, userId).Some? then (Err(Forbidden), s)
      else
        match FindRoom(s, roomId)
        case None => (Err(NotFound), s)
        case Some(room) =>
          if room.capacity == Occupancy(s.bookings, room.id) then (Err(Forbidden), s)
          else
            match Repo.CreateBooking(s, room.id, userId)
            case (None, _) => (Err(Forbidden), s)
            case (Some(created), after) => (Ok(created), after)
  }

  /** The user's own booking counts towards the occupancy of the room it is
      in, so asking to move it into that same room is refused exactly when
      the room's capacity equals its occupancy, whatever the capacity. */
  lemma OwnBookingCountsTowardsRoom(s: Store, userId: int, bookingId: int)
    requires InPersonLodgingEntitled(s, userId)
    requires OwnsBooking(s, bookingId, userId)
    requires WellFormed(s)
    ensures var own := Repo.FindBookingById(s.bookings, bookingId).value.roomId;
            && own in s.rooms
            && Occupancy(s.bookings, own) >= 1
            && (UpdateBooking(s, userId, own, bookingId).0 == Err(Forbidden) <==> s.rooms[own].capacity == Occupancy(s.bookings, own))
            && (UpdateBooking(s, userId, own, bookingId).0.Ok? <==> s.rooms[own].capacity != Occupancy(s.bookings, own))
  {
    var b := Repo.FindBookingById(s.bookings, bookingId).value;
    var i :| Repo.FirstWithId(s.bookings, i, bookingId) && s.bookings[i] == b;
    Repo.OccupancyCountsMember(s.bookings, i);
  }

  /** Updating into a full room is refused even when the room is the one the
      booking already occupies: in a single room that is not over-full, the
      user's own booking alone fills it. */
  lemma UpdateIntoOwnFullRoomForbidden(s: Store, userId: int, bookingId: int)
    requires InPersonLodgingEntitled(s, userId)
    requires OwnsBooking(s, bookingId, userId)
    requires WellFormed(s)
    requires Repo.FindBookingById(s.bookings, bookingId).value.roomId in s.rooms
    requires s.rooms[Repo.FindBookingById(s.bookings, bookingId).value.roomId].capacity == 1
    requires Occupancy(s.bookings, Repo.FindBookingById(s.bookings, bookingId).value.roomId) <= 1
    ensures UpdateBooking(s, userId, Repo.FindBookingById(s.bookings, bookingId).value.roomId, bookingId).0 == Err(Forbidden)
  {
    OwnBookingCountsTowardsRoom(s, userId, bookingId);
  }

  /** Because the capacity test is strict equality, a room that already holds
      more bookings than its capacity accepts one more. */
  lemma OverfullRoomAcceptsBooking(s: Store, userId: int, roomId: int)
    requires InPersonLodgingEntitled(s, userId)
    requires !Repo.HasBookingOf(s.bookings, userId)
    requires roomId in s.rooms
    requires Occupancy(s.bookings, s.rooms[roomId].id) > s.rooms[roomId].capacity
    ensures MakeBooking(s, userId, roomId).0.Ok?
    ensures Occupancy(MakeBooking(s, userId, roomId).1.bookings, s.rooms[roomId].id) > s.rooms[roomId].capacity + 1
  {
    var room := s.rooms[roomId];
    Repo.OccupancyAppend(s.bookings, Booking(s.nextBookingId, userId, room.id), room.id);
  }

  /** Viewing a booking never consults `isRemote`. */
  lemma FindBookingIgnoresRemote(s: Store, userId: int, typeId: int, remote: bool)
    requires typeId in s.ticketTypes
    ensures FindBooking(s.(ticketTypes := s.ticketTypes[typeId := s.ticketTypes[typeId].(isRemote := remote)]), userId)
         == FindBooking(s, userId)
  {
    ReadGateIgnoresRemote(s, userId, typeId, remote);
  }
}
