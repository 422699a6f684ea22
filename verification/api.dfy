/** The five endpoints as one state machine over the store: a request and a
    store yield a response and the next store. Requests run one at a time. */
module Api {
  import opened Common
  import opened Store
  import opened Entitlement
  import opened Http
  import opened Invariants
  import Repo = BookingRepository
  import Service = BookingsService
  import Bookings = BookingsController
  import Hotels = HotelsController

  /** An authenticated request: the user id has already been resolved from
      the session. */
  datatype Request =
    | GetBooking(userId: int)
    | PostBooking(userId: int, roomId: Option<int>)
    | PutBooking(userId: int, bookingId: int, roomId: Option<int>)
    | GetHotels(userId: int)
    | GetHotel(userId: int, hotelId: int)

  predicate IsRead(req: Request) {
    req.GetBooking? || req.GetHotels? || req.GetHotel?
  }

  predicate IsSuccess(resp: Response) {
    resp.Send? && resp.status == OK
  }

  function Handle(s: Store, req: Request): (r: (Response, Store))
    ensures IsRead(req) ==> r.1 == s && r.0.Send? && r.0.status in {OK, UNAUTHORIZED, NOT_FOUND}
    ensures !IsRead(req) && r.0.Send? ==> r.0.status in {OK, BAD_REQUEST, FORBIDDEN, NOT_FOUND}
    ensures !IsSuccess(r.0) ==> r.1 == s
    ensures req.PostBooking? && IsSuccess(r.0) ==> |r.1.bookings| == |s.bookings| + 1
    ensures !req.PostBooking? ==> |r.1.bookings| == |s.bookings|
  {
    match req
    case GetBooking(u) => (Bookings.GetMyBooking(s, u), s)
    case PostBooking(u, roomId) => Bookings.MakeBooking(s, u, roomId)
    case PutBooking(u, bookingId, roomId) => Bookings.UpdateBooking(s, u, bookingId, roomId)
    case GetHotels(u) => (Hotels.GetHotelsAvailable(s, u), s)
    case GetHotel(u, hotelId) => (Hotels.GetRoom(s, u, hotelId), s)
  }

  /** Requests served in order, each on the store the previous one left. */
  function Run(s: Store, reqs: seq<Request>): (r: (seq<Response>, Store))
    ensures |r.0| == |reqs|
    ensures (forall i :: 0 <= i < |reqs| ==> IsRead(reqs[i])) ==> r.1 == s
    ensures (forall i :: 0 <= i < |r.0| ==> !IsSuccess(r.0[i])) ==> r.1 == s
    decreases |reqs|
  {
    if |reqs| == 0 then ([], s)
    else
      var (resp, next) := Handle(s, reqs[0]);
      var (rest, last) := Run(next, reqs[1..]);
      assert ([resp] + rest)[0] == resp;
      assert forall i :: 0 <= i < |rest| ==> ([resp] + rest)[i + 1] == rest[i];
      assert forall i :: 0 <= i < |reqs[1..]| ==> reqs[1..][i] == reqs[i + 1];
      ([resp] + rest, last)
  }

  /** How many of the requests were bookings answered with 200. */
  function BookingsMade(reqs: seq<Request>, resps: seq<Response>): nat
    requires |reqs| == |resps|
  {
    if |reqs| == 0 then 0
    else (if reqs[0].PostBooking? && IsSuccess(resps[0]) then 1 else 0) + BookingsMade(reqs[1..], resps[1..])
  }

  lemma HandlePreservesInvariant(s: Store, req: Request)
    requires Invariant(s)
    ensures Invariant(Handle(s, req).1)
  {
    match req
    case PostBooking(u, roomId) =>
      if !Bookings.RejectsRoomId(roomId) {
        MakeBookingPreservesInvariant(s, u, roomId.value);
      }
    case PutBooking(u, bookingId, roomId) =>
      if !Bookings.RejectsRoomId(roomId) {
        UpdateBookingPreservesInvariant(s, u, roomId.value, bookingId);
      }
    case _ =>
  }

  /** Served one at a time, no sequence of requests ever gives a user two
      bookings or puts a room above its capacity. */
  lemma {:induction false} RunPreservesInvariant(s: Store, reqs: seq<Request>)
    requires Invariant(s)
    ensures Invariant(Run(s, reqs).1)
    decreases |reqs|
  {
    if |reqs| > 0 {
      HandlePreservesInvariant(s, reqs[0]);
      RunPreservesInvariant(Handle(s, reqs[0]).1, reqs[1..]);
    }
  }

  /** Bookings are never removed, and each booking answered with 200 adds
      exactly one. */
  lemma {:induction false} RunBookingCount(s: Store, reqs: seq<Request>)
    ensures |Run(s, reqs).1.bookings| == |s.bookings| + BookingsMade(reqs, Run(s, reqs).0)
    decreases |reqs|
  {
    if |reqs| > 0 {
      var (resp, next) := Handle(s, reqs[0]);
      RunBookingCount(next, reqs[1..]);
      var r := Run(s, reqs);
      assert r.0[0] == resp;
      assert r.0[1..] == Run(next, reqs[1..]).0;
    }
  }

  /** Only a change request whose booking id matches no row goes unanswered,
      once every ticket's type exists. */
  lemma NoResponseOnlyForMissingBooking(s: Store, req: Request)
    requires WellFormed(s)
    requires Handle(s, req).0.NoResponse?
    ensures req.PutBooking? && !Repo.HasBookingWithId(s.bookings, req.bookingId)
  {
  }

  /** An entitled user asking to move a booking id that matches no row gets
      no response at all: the missing row is dereferenced, and the resulting
      error matches neither branch of the handler. */
  lemma MissingBookingGoesUnanswered(s: Store, userId: int, bookingId: int, roomId: int)
    requires InPersonLodgingEntitled(s, userId)
    requires !Repo.HasBookingWithId(s.bookings, bookingId)
    requires roomId >= 1
    ensures Handle(s, PutBooking(userId, bookingId, Some(roomId))) == (NoResponse, s)
  {
  }

  /** A second booking by the same user is refused, whatever room it asks for. */
  lemma SecondPostForbidden(s: Store, userId: int, room1: int, room2: int)
    requires IsSuccess(Handle(s, PostBooking(userId, Some(room1))).0)
    requires room2 >= 1
    ensures var next := Handle(s, PostBooking(userId, Some(room1))).1;
            Handle(next, PostBooking(userId, Some(room2))).0 == Send(FORBIDDEN, NoBody)
  {
    var (res, next) := Service.MakeBooking(s, userId, room1);
    GatesIgnoreBookings(s, userId, next.bookings, next.nextBookingId);
    assert next.bookings[|s.bookings|].userId == userId;
  }

  /** After a booking is made, viewing the booking returns exactly it. */
  lemma PostThenGet(s: Store, userId: int, roomId: int)
    requires IsSuccess(Handle(s, PostBooking(userId, Some(roomId))).0)
    ensures var (resp, next) := Handle(s, PostBooking(userId, Some(roomId)));
            Handle(next, GetBooking(userId)).0 == Send(OK, BookingBody(Booking(resp.body.id, userId, s.rooms[roomId].id)))
  {
    var (res, next) := Service.MakeBooking(s, userId, roomId);
    var b := res.value;
    GatesIgnoreBookings(s, userId, next.bookings, next.nextBookingId);
    assert next.bookings[|s.bookings|] == b;
    var found := Repo.FindBookingByUserId(next.bookings, userId);
    var i :| Repo.FirstOfUser(next.bookings, i, userId) && next.bookings[i] == found.value;
    assert i == |s.bookings|;
  }

  /** After a booking is moved, viewing the booking returns it with the new
      room: with one booking per user, the moved booking is the user's. */
  lemma PutThenGet(s: Store, userId: int, bookingId: int, roomId: int)
    requires Invariant(s)
    requires roomId >= 1 && Service.CanUpdateBooking(s, userId, roomId, bookingId)
    ensures var next := Handle(s, PutBooking(userId, bookingId, Some(roomId))).1;
            Handle(next, GetBooking(userId)).0 == Send(OK, BookingBody(Booking(bookingId, userId, roomId)))
  {
    var next := Service.UpdateBooking(s, userId, roomId, bookingId).1;
    assert Handle(s, PutBooking(userId, bookingId, Some(roomId))).1 == next;
    FindBookingAfterUpdate(s, userId, roomId, bookingId);
    assert Handle(next, GetBooking(userId)).0 == Bookings.GetMyBooking(next, userId);
  }
}
