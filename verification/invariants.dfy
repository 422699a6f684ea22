/** The intended booking invariants: at most one booking per user and no room
    above its capacity. Executed one at a time, the two mutations preserve
    them together with the schema guarantees of `WellFormed`. */
module Invariants {
  import opened Common
  import opened Store
  import opened Entitlement
  import Repo = BookingRepository
  import Service = BookingsService

  predicate OneBookingPerUser(bookings: seq<Booking>) {
    forall i, j :: 0 <= i < j < |bookings| ==> bookings[i].userId != bookings[j].userId
  }

  predicate WithinCapacity(s: Store) {
    forall k :: k in s.rooms ==> Occupancy(s.bookings, k) <= s.rooms[k].capacity
  }

  predicate Invariant(s: Store) {
    WellFormed(s) && OneBookingPerUser(s.bookings) && WithinCapacity(s)
  }

  /** A successful make appends a booking for a user with none, into a room
      below capacity, under a fresh id. */
  lemma MakeBookingPreservesInvariant(s: Store, userId: int, roomId: int)
    requires Invariant(s)
    ensures Invariant(Service.MakeBooking(s, userId, roomId).1)
  {
    var (res, t) := Service.MakeBooking(s, userId, roomId);
    if res.Ok? {
      var b := res.value;
      assert b.roomId == roomId;
      assert t.bookings == s.bookings + [b];
      forall k | k in t.rooms
        ensures Occupancy(t.bookings, k) <= t.rooms[k].capacity
      {
        Repo.OccupancyAppend(s.bookings, b, k);
      }
    }
  }

  /** Repointing one booking into an existing room that is below capacity
      (or is the booking's own room) keeps the invariant. */
  lemma RepointPreservesInvariant(s: Store, k: int, roomId: int)
    requires Invariant(s)
    requires 0 <= k < |s.bookings|
    requires roomId in s.rooms
    requires s.bookings[k].roomId == roomId || Occupancy(s.bookings, roomId) < s.rooms[roomId].capacity
    ensures Invariant(s.(bookings := Repo.Repoint(s.bookings, s.bookings[k].id, roomId)))
  {
    var t := s.(bookings := Repo.Repoint(s.bookings, s.bookings[k].id, roomId));
    forall x | x in t.rooms
      ensures Occupancy(t.bookings, x) <= t.rooms[x].capacity
    {
      Repo.OccupancyRepoint(s.bookings, k, roomId, x);
    }
  }

  /** A successful update keeps every id and owner, and moves one unit of
      occupancy into a room that was below capacity. */
  lemma UpdateBookingPreservesInvariant(s: Store, userId: int, roomId: int, bookingId: int)
    requires Invariant(s)
    ensures Invariant(Service.UpdateBooking(s, userId, roomId, bookingId).1)
  {
    if Service.UpdateBooking(s, userId, roomId, bookingId).0.Ok? {
      var found := Repo.FindBookingById(s.bookings, bookingId).value;
      var k :| Repo.FirstWithId(s.bookings, k, bookingId) && s.bookings[k] == found;
      RepointPreservesInvariant(s, k, roomId);
    }
  }

  /** With one booking per user and unique ids, the user's booking after a
      repoint is the repointed booking. */
  lemma FindOwnBookingAfterRepoint(bookings: seq<Booking>, k: int, roomId: int)
    requires 0 <= k < |bookings|
    requires OneBookingPerUser(bookings)
    requires forall i, j :: 0 <= i < j < |bookings| ==> bookings[i].id != bookings[j].id
    ensures Repo.FindBookingByUserId(Repo.Repoint(bookings, bookings[k].id, roomId), bookings[k].userId)
         == Some(bookings[k].(roomId := roomId))
  {
    var after := Repo.Repoint(bookings, bookings[k].id, roomId);
    assert after[k] == bookings[k].(roomId := roomId);
    var found := Repo.FindBookingByUserId(after, bookings[k].userId);
    var i :| Repo.FirstOfUser(after, i, bookings[k].userId) && after[i] == found.value;
    assert i == k;
  }

  /** With one booking per user, after a successful change the user's
      booking is the changed one, in its new room. */
  lemma FindBookingAfterUpdate(s: Store, userId: int, roomId: int, bookingId: int)
    requires Invariant(s)
    requires Service.UpdateBooking(s, userId, roomId, bookingId).0.Ok?
    ensures Service.FindBooking(Service.UpdateBooking(s, userId, roomId, bookingId).1, userId)
         == Ok(Booking(bookingId, userId, roomId))
  {
    var next := Service.UpdateBooking(s, userId, roomId, bookingId).1;
    GatesIgnoreBookings(s, userId, next.bookings, next.nextBookingId);
    var before := Repo.FindBookingById(s.bookings, bookingId).value;
    var k :| Repo.FirstWithId(s.bookings, k, bookingId) && s.bookings[k] == before;
    FindOwnBookingAfterRepoint(s.bookings, k, roomId);
  }
}
