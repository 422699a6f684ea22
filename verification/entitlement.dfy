/** The entitlement checks every service opens with. The reading operations
    (view booking, list hotels, list a hotel's rooms) share one chain; the two
    booking mutations share a stricter one that reports every ticket failure
    as Forbidden and also rejects remote tickets. */
module Entitlement {
  import opened Common
  import opened Store

  predicate Enrolled(s: Store, userId: int) {
    userId in s.enrollments
  }

  predicate HasTicket(s: Store, userId: int) {
    Enrolled(s, userId) && s.enrollments[userId].id in s.tickets
  }

  /** The first ticket of the user's enrollment. */
  function TicketOf(s: Store, userId: int): Ticket
    requires HasTicket(s, userId)
  {
    s.tickets[s.enrollments[userId].id]
  }

  predicate TicketPaid(s: Store, userId: int) {
    HasTicket(s, userId) && TicketOf(s, userId).status == Paid
  }

  /** The ticket's type row exists. */
  predicate TypeKnown(s: Store, userId: int) {
    HasTicket(s, userId) && TicketOf(s, userId).ticketTypeId in s.ticketTypes
  }

  function TypeOf(s: Store, userId: int): TicketType
    requires TypeKnown(s, userId)
  {
    s.ticketTypes[TicketOf(s, userId).ticketTypeId]
  }

  predicate IncludesHotel(s: Store, userId: int) {
    TypeKnown(s, userId) && TypeOf(s, userId).includesHotel
  }

  predicate IsRemote(s: Store, userId: int) {
    TypeKnown(s, userId) && TypeOf(s, userId).isRemote
  }

  /** A paid ticket whose type includes lodging. */
  predicate LodgingEntitled(s: Store, userId: int) {
    TicketPaid(s, userId) && IncludesHotel(s, userId)
  }

  /** A paid ticket whose type includes lodging for an in-person event. */
  predicate InPersonLodgingEntitled(s: Store, userId: int) {
    LodgingEntitled(s, userId) && !IsRemote(s, userId)
  }

  /** The user holds a ticket, but it is unpaid or of a type known to exclude
      lodging: the condition the read chain reports as Unauthorized. */
  predicate LodgingRefused(s: Store, userId: int) {
    HasTicket(s, userId) && (!TicketPaid(s, userId) || (TypeKnown(s, userId) && !IncludesHotel(s, userId)))
  }

  /** The user is enrolled but fails the mutation chain without reaching the
      `includesHotel` read of a missing type row: the condition the mutation
      chain reports as Forbidden. */
  predicate InPersonLodgingRefused(s: Store, userId: int) {
    Enrolled(s, userId) && !InPersonLodgingEntitled(s, userId) && !(TicketPaid(s, userId) && !TypeKnown(s, userId))
  }

  /** The reading operations' chain. A paid ticket whose type row is missing
      makes the `includesHotel` read throw; a ticket that is not paid
      short-circuits before that read. */
  function ReadGate(s: Store, userId: int): (r: Verdict)
    ensures !Enrolled(s, userId) ==> r == Fail(NotFound)
    ensures Enrolled(s, userId) && !HasTicket(s, userId) ==> r == Fail(NotFound)
    ensures HasTicket(s, userId) && !TicketPaid(s, userId) ==> r == Fail(Unauthorized)
    ensures TicketPaid(s, userId) && !TypeKnown(s, userId) ==> r == Fail(Crash)
    ensures TicketPaid(s, userId) && TypeKnown(s, userId) && !IncludesHotel(s, userId) ==> r == Fail(Unauthorized)
    ensures r.Pass? <==> LodgingEntitled(s, userId)
    ensures r == Fail(Unauthorized) <==> LodgingRefused(s, userId)
  {
    if userId !in s.enrollments then Fail(NotFound)
    else
      var enrollment := s.enrollments[userId];
      if enrollment.id !in s.tickets then Fail(NotFound)
      else
        var ticket := s.tickets[enrollment.id];
        if ticket.status != Paid then Fail(Unauthorized)
        else if ticket.ticketTypeId !in s.ticketTypes then Fail(Crash)
        else if !s.ticketTypes[ticket.ticketTypeId].includesHotel then Fail(Unauthorized)
        else Pass
  }

  /** The booking mutations' chain: a missing enrollment is still NotFound,
      every later failure is Forbidden, and a remote ticket type fails too. */
  function MutationGate(s: Store, userId: int): (r: Verdict)
    ensures !Enrolled(s, userId) ==> r == Fail(NotFound)
    ensures Enrolled(s, userId) && !HasTicket(s, userId) ==> r == Fail(Forbidden)
    ensures HasTicket(s, userId) && !TicketPaid(s, userId) ==> r == Fail(Forbidden)
    ensures TicketPaid(s, userId) && !TypeKnown(s, userId) ==> r == Fail(Crash)
    ensures TicketPaid(s, userId) && TypeKnown(s, userId) && (!IncludesHotel(s, userId) || IsRemote(s, userId)) ==> r == Fail(Forbidden)
    ensures r.Pass? <==> InPersonLodgingEntitled(s, userId)
    ensures r == Fail(Forbidden) <==> InPersonLodgingRefused(s, userId)
  {
    if userId !in s.enrollments then Fail(NotFound)
    else
      var enrollment := s.enrollments[userId];
      if enrollment.id !in s.tickets then Fail(Forbidden)
      else
        var ticket := s.tickets[enrollment.id];
        if ticket.status != Paid then Fail(Forbidden)
        else if ticket.ticketTypeId !in s.ticketTypes then Fail(Crash)
        else
          var ticketType := s.ticketTypes[ticket.ticketTypeId];
          if !ticketType.includesHotel || ticketType.isRemote then Fail(Forbidden)
          else Pass
  }

  /** Where the read chain fails with NotFound or Unauthorized, the mutation
      chain fails with the same condition mapped to NotFound or Forbidden. */
  lemma GatesDiverge(s: Store, userId: int)
    ensures ReadGate(s, userId) == Fail(Unauthorized) ==> MutationGate(s, userId) == Fail(Forbidden)
    ensures ReadGate(s, userId) == Fail(NotFound) && Enrolled(s, userId) ==> MutationGate(s, userId) == Fail(Forbidden)
    ensures !Enrolled(s, userId) <==> (ReadGate(s, userId) == Fail(NotFound) && MutationGate(s, userId) == Fail(NotFound))
    ensures MutationGate(s, userId).Pass? ==> ReadGate(s, userId).Pass?
    ensures ReadGate(s, userId) == Fail(Crash) <==> MutationGate(s, userId) == Fail(Crash)
  {
  }

  /** Under referential integrity of ticket types neither chain crashes. */
  lemma WellFormedGatesDoNotCrash(s: Store, userId: int)
    requires WellFormed(s)
    ensures ReadGate(s, userId) != Fail(Crash) && MutationGate(s, userId) != Fail(Crash)
  {
  }

  /** The read chain never consults `isRemote`: flipping it on any ticket
      type leaves the verdict unchanged. */
  lemma ReadGateIgnoresRemote(s: Store, userId: int, typeId: int, remote: bool)
    requires typeId in s.ticketTypes
    ensures ReadGate(s.(ticketTypes := s.ticketTypes[typeId := s.ticketTypes[typeId].(isRemote := remote)]), userId)
         == ReadGate(s, userId)
  {
  }

  /** Neither chain depends on the bookings table. */
  lemma GatesIgnoreBookings(s: Store, userId: int, bookings: seq<Booking>, nextId: int)
    ensures ReadGate(s.(bookings := bookings, nextBookingId := nextId), userId) == ReadGate(s, userId)
    ensures MutationGate(s.(bookings := bookings, nextBookingId := nextId), userId) == MutationGate(s, userId)
  {
  }
}
