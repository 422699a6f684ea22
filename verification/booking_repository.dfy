/** The booking repository: two first-match reads and the only two transitions
    of the store, inserting a booking and repointing a booking's room. */
module BookingRepository {
  import opened Common
  import opened Store

  /** `i` is the position of the first booking held by `userId`. */
  ghost predicate FirstOfUser(bookings: seq<Booking>, i: int, userId: int) {
    && 0 <= i < |bookings|
    && bookings[i].userId == userId
    && forall j :: 0 <= j < i ==> bookings[j].userId != userId
  }

  /** `i` is the position of the first booking with id `bookingId`. */
  ghost predicate FirstWithId(bookings: seq<Booking>, i: int, bookingId: int) {
    && 0 <= i < |bookings|
    && bookings[i].id == bookingId
    && forall j :: 0 <= j < i ==> bookings[j].id != bookingId
  }

  predicate HasBookingOf(bookings: seq<Booking>, userId: int) {
    exists i :: 0 <= i < |bookings| && bookings[i].userId == userId
  }

  predicate HasBookingWithId(bookings: seq<Booking>, bookingId: int) {
    exists i :: 0 <= i < |bookings| && bookings[i].id == bookingId
  }

  /** The first booking held by the user, or none. */
  function FindBookingByUserId(bookings: seq<Booking>, userId: int): (r: Option<Booking>)
    ensures r.None? <==> !HasBookingOf(bookings, userId)
    ensures r.Some? ==> exists i :: FirstOfUser(bookings, i, userId) && bookings[i] == r.value
  {
    match IndexWhere(bookings, (b: Booking) => b.userId == userId)
    case None => None
    case Some(i) =>
      assert FirstOfUser(bookings, i, userId);
      Some(bookings[i])
  }

  /** The first booking with that id, or none. */
  function FindBookingById(bookings: seq<Booking>, bookingId: int): (r: Option<Booking>)
    ensures r.None? <==> !HasBookingWithId(bookings, bookingId)
    ensures r.Some? ==> exists i :: FirstWithId(bookings, i, bookingId) && bookings[i] == r.value
  {
    match IndexWhere(bookings, (b: Booking) => b.id == bookingId)
    case None => None
    case Some(i) =>
      assert FirstWithId(bookings, i, bookingId);
      Some(bookings[i])
  }

  /** Every booking with id `bookingId` now references `roomId`; nothing else
      about any booking changes. */
  function Repoint(bookings: seq<Booking>, bookingId: int, roomId: int): (r: seq<Booking>)
    ensures |r| == |bookings|
    ensures forall i :: 0 <= i < |r| ==> r[i].id == bookings[i].id && r[i].userId == bookings[i].userId
    ensures forall i :: 0 <= i < |r| && bookings[i].id == bookingId ==> r[i].roomId == roomId
    ensures forall i :: 0 <= i < |r| && bookings[i].id != bookingId ==> r[i] == bookings[i]
  {
    if |bookings| == 0 then []
    else
      var b := bookings[0];
      [if b.id == bookingId then b.(roomId := roomId) else b] + Repoint(bookings[1..], bookingId, roomId)
  }

  /** The repository's update: sets the `roomId` of the booking with
      `bookingId` and returns the updated row. The `userId` argument is not
      used. A missing id writes nothing and yields no row. */
  function UpdateBooking(s: Store, roomId: int, bookingId: int, userId: int): (r: (Option<Booking>, Store))
    ensures r.0.None? <==> !HasBookingWithId(s.bookings, bookingId)
    ensures r.0.None? ==> r.1 == s
    ensures r.0.Some? ==> r.0.value.id == bookingId && r.0.value.roomId == roomId
    ensures r.0.Some? ==> exists i :: FirstWithId(s.bookings, i, bookingId) && r.0.value.userId == s.bookings[i].userId
    ensures r.0.Some? ==> r.1 == s.(bookings := Repoint(s.bookings, bookingId, roomId))
  {
    match FindBookingById(s.bookings, bookingId)
    case None => (None, s)
    case Some(b) => (Some(b.(roomId := roomId)), s.(bookings := Repoint(s.bookings, bookingId, roomId)))
  }

  /** The repository's create: appends one booking with a fresh generated id
      and returns it; existing bookings are untouched. */
  function CreateBooking(s: Store, roomId: int, userId: int): (r: (Option<Booking>, Store))
    ensures r.0.Some? && r.0.value.userId == userId && r.0.value.roomId == roomId
    ensures r.0.Some? ==> r.0.value.id == s.nextBookingId
    ensures r.0.Some? ==> r.1 == s.(bookings := s.bookings + [r.0.value], nextBookingId := s.nextBookingId + 1)
    ensures WellFormed(s) ==> forall i :: 0 <= i < |s.bookings| ==> s.bookings[i].id != r.0.value.id
  {
    var b := Booking(s.nextBookingId, userId, roomId);
    (Some(b), s.(bookings := s.bookings + [b], nextBookingId := s.nextBookingId + 1))
  }

  /** The update's `userId` argument has no effect. */
  lemma UpdateIgnoresUserId(s: Store, roomId: int, bookingId: int, u1: int, u2: int)
    ensures UpdateBooking(s, roomId, bookingId, u1) == UpdateBooking(s, roomId, bookingId, u2)
  {
  }

  /** Appending a booking adds one to its room's occupancy and leaves every
      other room's occupancy alone. */
  lemma {:induction false} OccupancyAppend(bookings: seq<Booking>, b: Booking, roomId: int)
    ensures Occupancy(bookings + [b], roomId) == Occupancy(bookings, roomId) + (if b.roomId == roomId then 1 else 0)
  {
    if |bookings| == 0 {
      assert bookings + [b] == [b];
      assert [b][1..] == [];
    } else {
      assert (bookings + [b])[1..] == bookings[1..] + [b];
      OccupancyAppend(bookings[1..], b, roomId);
    }
  }

  /** Repointing an id that no booking carries changes nothing. */
  lemma RepointAbsent(bookings: seq<Booking>, bookingId: int, roomId: int)
    requires !HasBookingWithId(bookings, bookingId)
    ensures Repoint(bookings, bookingId, roomId) == bookings
  {
  }

  /** With unique ids, repointing the booking at position `k` moves exactly
      one unit of occupancy from its old room to `roomId`. */
  lemma {:induction false} OccupancyRepoint(bookings: seq<Booking>, k: int, roomId: int, x: int)
    requires 0 <= k < |bookings|
    requires forall i, j :: 0 <= i < j < |bookings| ==> bookings[i].id != bookings[j].id
    ensures Occupancy(Repoint(bookings, bookings[k].id, roomId), x)
         == Occupancy(bookings, x) - (if bookings[k].roomId == x then 1 else 0) + (if roomId == x then 1 else 0)
  {
    var id := bookings[k].id;
    var r := Repoint(bookings, id, roomId);
    assert r[1..] == Repoint(bookings[1..], id, roomId);
    if k == 0 {
      assert !HasBookingWithId(bookings[1..], id) by {
        forall i | 0 <= i < |bookings[1..]|
          ensures bookings[1..][i].id != id
        {
          assert bookings[1..][i] == bookings[i + 1];
        }
      }
      RepointAbsent(bookings[1..], id, roomId);
    } else {
      assert bookings[1..][k - 1] == bookings[k];
      OccupancyRepoint(bookings[1..], k - 1, roomId, x);
    }
  }

  /** A booking counts towards the occupancy of the room it references. */
  lemma {:induction false} OccupancyCountsMember(bookings: seq<Booking>, i: int)
    requires 0 <= i < |bookings|
    ensures Occupancy(bookings, bookings[i].roomId) >= 1
  {
    if i > 0 {
      assert bookings[1..][i - 1] == bookings[i];
      OccupancyCountsMember(bookings[1..], i - 1);
    }
  }
}
